/**
 The stored side of a subscription: rows, the derived tag index, the WHERE clause a filter is compiled
 to, and the proof that the clause selects what the live matcher accepts.
 */
module Sql {
  import opened Wrappers
  import opened Hex
  import opened Nostr

  datatype Json = Text(text: string) | Number(number: int)

  /** A row of the events table; a NULL deduplication column is None. */
  datatype Row = Row(
    eventId: Bytes, pubkey: Bytes, createdAt: int, kind: int, tags: seq<Tag>, content: string,
    signature: Bytes, dedup: Option<seq<Json>>, deleted: bool)

  datatype TagRow = TagRow(eventId: Bytes, name: string, value: string)

  function ToNostrEvent(r: Row): Event {
    Event(FromBuffer(r.eventId), FromBuffer(r.pubkey), r.createdAt, r.kind, r.tags, r.content, FromBuffer(r.signature))
  }

  function RowOf(e: Event, dedup: Option<seq<Json>>): Row {
    Row(ToBuffer(e.id), ToBuffer(e.pubkey), e.createdAt, e.kind, e.tags, e.content, ToBuffer(e.sig), dedup, false)
  }

  predicate ColumnWidths(r: Row) {
    |r.eventId| == 32 && |r.pubkey| == 32
  }

  lemma RowRoundTrip(e: Event, dedup: Option<seq<Json>>)
    requires ValidEvent(e)
    ensures ToNostrEvent(RowOf(e, dedup)) == e && ColumnWidths(RowOf(e, dedup))
  {
    TextRoundTrip(e.id);
    TextRoundTrip(e.pubkey);
    TextRoundTrip(e.sig);
  }

  // ----- the text the tag trigger indexes -----

  predicate JsonPlain(c: char) {
    c != '"' && c != '\\' && c >= ' '
  }

  /** Text that JSON writes as it is, between quotes. */
  predicate Plain(s: string) {
    forall i | 0 <= i < |s| :: JsonPlain(s[i])
  }

  function EscapeChar(c: char): (s: string)
    ensures JsonPlain(c) ==> s == [c]
    ensures !JsonPlain(c) ==> |s| >= 2 && s[0] == '\\'
    ensures c != '"' ==> s[|s| - 1] != '"'
    ensures c == '"' ==> s == ['\\'] + "\""
  {
    if JsonPlain(c) then [c]
    else if c == '"' || c == '\\' then ['\\', c]
    else if c == '\n' then "\\n"
    else if c == '\r' then "\\r"
    else if c == '\t' then "\\t"
    else if c as int == 8 then "\\b"
    else if c as int == 12 then "\\f"
    else "\\u00" + HexPair(c as int)
  }

  function Escape(s: string): string {
    if s == "" then "" else EscapeChar(s[0]) + Escape(s[1..])
  }

  /** The text of a JSON string: PostgreSQL's jsonb::text on a string element. */
  function JsonText(s: string): string {
    "\"" + Escape(s) + "\""
  }

  function TrimLeft(s: string): string {
    if s != "" && s[0] == '"' then TrimLeft(s[1..]) else s
  }

  function TrimRight(s: string): string {
    if s != "" && s[|s| - 1] == '"' then TrimRight(s[..|s| - 1]) else s
  }

  /** trim(text, '"') */
  function Trim(s: string): string {
    TrimRight(TrimLeft(s))
  }

  function Indexed(s: string): string {
    Trim(JsonText(s))
  }

  lemma {:induction false} EscapeSnoc(s: string, c: char)
    ensures Escape(s + [c]) == Escape(s) + EscapeChar(c)
  {
    hide EscapeChar;
    if s == "" {
      assert s + [c] == [c] && [c][1..] == "";
    } else {
      assert (s + [c])[1..] == s[1..] + [c];
      EscapeSnoc(s[1..], c);
    }
  }

  lemma {:induction false} EscapePlain(s: string)
    ensures Plain(s) ==> Escape(s) == s
    ensures !Plain(s) ==> '\\' in Escape(s)
  {
    if s != "" {
      hide EscapeChar, JsonPlain;
      EscapePlain(s[1..]);
      PlainCons(s);
      assert Escape(s) == EscapeChar(s[0]) + Escape(s[1..]);
      if JsonPlain(s[0]) {
        assert s == [s[0]] + s[1..];
      } else {
        assert Escape(s)[0] == '\\';
      }
    }
  }

  lemma PlainCons(s: string)
    requires s != ""
    ensures Plain(s) <==> JsonPlain(s[0]) && Plain(s[1..])
  {
    hide JsonPlain;
    assert forall i | 0 <= i < |s| :: i > 0 ==> s[i] == s[1..][i - 1];
  }

  lemma TrimRightQuote(s: string, c: char)
    requires c != '"'
    ensures TrimRight(s + [c] + "\"") == s + [c]
    ensures TrimRight(s + [c]) == s + [c]
  {
    assert (s + [c] + "\"")[..|s| + 1] == s + [c];
  }

  lemma TrimLeftQuote(e: string)
    requires e != "" && e[0] != '"'
    ensures TrimLeft("\"" + e + "\"") == e + "\""
  {
    assert ("\"" + e + "\"")[1..] == e + "\"";
  }

  lemma EscapeFirst(s: string)
    requires s != ""
    ensures Escape(s) != "" && Escape(s)[0] != '"'
  {
  }

  /** Trimming an escaped text that ends in an escaped quote takes that quote away. */
  lemma IndexedAfterQuote(s: string)
    ensures Indexed(s + "\"") == Escape(s) + ['\\']
  {
    hide EscapeChar;
    var e := Escape(s + "\"");
    EscapeFirst(s + "\"");
    EscapeSnoc(s, '"');
    TrimLeftQuote(e);
    TrimRightQuote(Escape(s), '\\');
    assert e == Escape(s) + ['\\'] + "\"";
    assert (e + "\"")[..|e|] == e;
    assert TrimRight(e + "\"") == TrimRight(e);
  }

  lemma IndexedAfterOther(s: string, c: char)
    requires c != '"'
    ensures Indexed(s + [c]) == Escape(s + [c])
  {
    hide EscapeChar;
    var e := Escape(s + [c]);
    EscapeFirst(s + [c]);
    EscapeSnoc(s, c);
    TrimLeftQuote(e);
    var front := e[..|e| - 1];
    assert e[|e| - 1] == EscapeChar(c)[|EscapeChar(c)| - 1];
    assert e == front + [e[|e| - 1]];
    TrimRightQuote(front, e[|e| - 1]);
  }

  lemma IndexedEmpty()
    ensures Indexed("") == ""
  {
    var quote := "\"";
    assert JsonText("") == quote + quote;
    assert (quote + quote)[1..] == quote && quote[1..] == "";
  }

  /** The index holds a plain text exactly for the tags that carry it: escaping never makes two tags meet there. */
  lemma IndexedIsPlainText(s: string, c: string)
    requires Plain(c)
    ensures Indexed(s) == c <==> s == c
  {
    if s == "" {
      IndexedEmpty();
    } else {
      hide Indexed, Escape, EscapeChar;
      var front, last := s[..|s| - 1], s[|s| - 1];
      assert s == front + [last];
      if last == '"' {
        IndexedAfterQuote(front);
        assert !JsonPlain(last) && !JsonPlain('\\');
        assert Indexed(s)[|Indexed(s)| - 1] == '\\';
      } else {
        IndexedAfterOther(front, last);
        EscapePlain(s);
      }
    }
  }

  // ----- texts the database can store -----

  /** PostgreSQL stores no NUL character, in text or in JSON. */
  predicate NulFree(s: string) {
    forall i | 0 <= i < |s| :: s[i] as int != 0
  }

  predicate Storable(tags: seq<Tag>) {
    forall t, text | t in tags && text in t :: NulFree(text)
  }

  lemma {:induction false} EscapeNulFree(s: string)
    ensures NulFree(Escape(s))
  {
    if s != "" {
      EscapeNulFree(s[1..]);
      EscapeCharNulFree(s[0]);
    }
  }

  lemma EscapeCharNulFree(c: char)
    ensures NulFree(EscapeChar(c))
  {
  }

  lemma {:induction false} TrimLeftNulFree(s: string)
    requires NulFree(s)
    ensures NulFree(TrimLeft(s))
  {
    if s != "" && s[0] == '"' {
      TrimLeftNulFree(s[1..]);
    }
  }

  lemma {:induction false} TrimRightNulFree(s: string)
    requires NulFree(s)
    ensures NulFree(TrimRight(s))
  {
    if s != "" && s[|s| - 1] == '"' {
      TrimRightNulFree(s[..|s| - 1]);
    }
  }

  /** An indexed text holds no NUL, whatever the tag was. */
  lemma IndexedNulFree(s: string)
    ensures NulFree(Indexed(s))
  {
    EscapeNulFree(s);
    TrimLeftNulFree(JsonText(s));
    TrimRightNulFree(TrimLeft(JsonText(s)));
  }

  /** The rows the trigger writes for the tags of one event. */
  function IndexedTags(id: Bytes, tags: seq<Tag>): seq<TagRow> {
    if tags == [] then []
    else IndexedTag(id, tags[0]) + IndexedTags(id, tags[1..])
  }

  function IndexedTag(id: Bytes, t: Tag): seq<TagRow> {
    if |t| >= 2 && |Indexed(t[0])| == 1 && Indexed(t[1]) != ""
    then [TagRow(id, Indexed(t[0]), Indexed(t[1]))]
    else []
  }

  lemma {:induction false} InIndexedTags(id: Bytes, tags: seq<Tag>, row: TagRow)
    ensures row in IndexedTags(id, tags) <==> exists t | t in tags :: IndexedTag(id, t) == [row]
  {
    if tags != [] {
      InIndexedTags(id, tags[1..], row);
      assert forall t :: t in tags <==> t == tags[0] || t in tags[1..];
    }
  }

  /** The index rows of an event, spelled out: one-character name, non-empty value, both as indexed. */
  lemma IndexedTagsExactly(id: Bytes, tags: seq<Tag>, row: TagRow)
    ensures row in IndexedTags(id, tags)
            <==> row.eventId == id && |row.name| == 1 && row.value != ""
                 && exists t | t in tags :: |t| >= 2 && Indexed(t[0]) == row.name && Indexed(t[1]) == row.value
  {
    hide Indexed;
    InIndexedTags(id, tags, row);
    if t :| t in tags && IndexedTag(id, t) == [row] {
      assert [row][0] == TagRow(id, Indexed(t[0]), Indexed(t[1]));
    }
  }

  // ----- JSON texts read back -----

  /** The character a single-letter escape of JSON stands for (RFC 8259, section 7). */
  function Unescaped(c: char): char {
    if c == 'n' then '\n' else if c == 'r' then '\r' else if c == 't' then '\t'
    else if c == 'b' then 8 as char else if c == 'f' then 12 as char else c
  }

  /** Reads the inside of a JSON string; only the escapes of the basic plane below 256 occur here. */
  function Unescape(s: string): string {
    if s == "" then ""
    else if s[0] != '\\' then [s[0]] + Unescape(s[1..])
    else if |s| >= 6 && s[1] == 'u' && Nibble(s[4]) >= 0 && Nibble(s[5]) >= 0 then
      [(16 * Nibble(s[4]) + Nibble(s[5])) as char] + Unescape(s[6..])
    else if |s| >= 2 then [Unescaped(s[1])] + Unescape(s[2..])
    else s
  }

  lemma EscapedCharReads(c: char, rest: string)
    ensures Unescape(EscapeChar(c) + rest) == [c] + Unescape(rest)
  {
    var text := EscapeChar(c) + rest;
    if JsonPlain(c) {
      assert text[1..] == rest;
    } else if |EscapeChar(c)| == 2 {
      assert text[2..] == rest && text[1] == EscapeChar(c)[1];
    } else {
      ControlReads(c);
      assert text[4] == Digit(c as int / 16) && text[5] == Digit(c as int % 16);
      NibbleOfDigit(c as int / 16);
      NibbleOfDigit(c as int % 16);
      assert text[6..] == rest;
    }
  }

  lemma ControlReads(c: char)
    requires !JsonPlain(c) && |EscapeChar(c)| != 2
    ensures c as int < 32 && EscapeChar(c) == "\\u00" + [Digit(c as int / 16), Digit(c as int % 16)]
  {
    hide Digit;
  }

  /** The text of a JSON string reads back as the string it was made of, so no two strings share a text. */
  lemma {:induction false} JsonReadsBack(s: string)
    ensures Unescape(Escape(s)) == s
  {
    if s != "" {
      hide EscapeChar, Unescape;
      JsonReadsBack(s[1..]);
      EscapedCharReads(s[0], Escape(s[1..]));
      assert s == [s[0]] + s[1..];
    } else {
      assert Unescape("") == "";
    }
  }
}
