/** NIP-42 authentication of one connection: the signed event, the gate, and what any run of them allows. */
module Authentication {
  import opened Wrappers
  import opened Nostr
  import opened StoreRuns

  // ----- the signed event -----

  predicate HasTag(tags: seq<Tag>, name: string) {
    exists i | 0 <= i < |tags| :: IsTagOf(tags[i], name)
  }

  /** isSignedAuthEvent: one pass that remembers which of the two tags it has met. */
  method IsSignedAuthEvent(e: Event) returns (signed: bool)
    ensures signed
            <==> e.kind == 22242
                 && (exists i | 0 <= i < |e.tags| :: |e.tags[i]| >= 2 && e.tags[i][0] == "relay")
                 && exists i | 0 <= i < |e.tags| :: |e.tags[i]| >= 2 && e.tags[i][0] == "challenge"
  {
    if e.kind != AUTH {
      return false;
    }
    var relay, challenge := false, false;
    for i := 0 to |e.tags|
      invariant relay <==> exists k | 0 <= k < i :: IsTagOf(e.tags[k], "relay")
      invariant challenge <==> exists k | 0 <= k < i :: IsTagOf(e.tags[k], "challenge")
      invariant !(relay && challenge)
    {
      var tag := e.tags[i];
      if |tag| < 2 {
        continue;
      }
      if tag[0] == "challenge" {
        if relay {
          assert IsTagOf(e.tags[i], "challenge");
          return true;
        }
        challenge := true;
      }
      if tag[0] == "relay" {
        if challenge {
          assert IsTagOf(e.tags[i], "relay");
          return true;
        }
        relay := true;
      }
    }
    return false;
  }

  /** The event answers this challenge: both tags, and the first challenge tag carries it. */
  predicate Answers(e: Event, challenge: string) {
    && e.kind == AUTH && HasTag(e.tags, "relay") && HasTag(e.tags, "challenge")
    && match FirstTag(e.tags, "challenge")
       case Some(t) => |t| >= 2 && t[1] == challenge
       case None => false
  }

  lemma {:induction false} FirstTagFound(tags: seq<Tag>, name: string)
    ensures FirstTag(tags, name).Some? <==> HasTag(tags, name)
    ensures FirstTag(tags, name).Some? ==> IsTagOf(FirstTag(tags, name).value, name)
  {
    if tags != [] {
      FirstTagFound(tags[1..], name);
      if HasTag(tags, name) && !IsTagOf(tags[0], name) {
        var i :| 0 <= i < |tags| && IsTagOf(tags[i], name);
        assert tags[1..][i - 1] == tags[i];
      }
      if HasTag(tags[1..], name) {
        var i :| 0 <= i < |tags[1..]| && IsTagOf(tags[1..][i], name);
        assert tags[i + 1] == tags[1..][i];
      }
    }
  }

  /** Which events answer a challenge, tag by tag: the first usable challenge tag has to carry it. */
  lemma AnswersExactly(e: Event, challenge: string)
    ensures Answers(e, challenge)
            <==> e.kind == 22242
                 && (exists i | 0 <= i < |e.tags| :: |e.tags[i]| >= 2 && e.tags[i][0] == "relay")
                 && exists i :: FirstNamed(e.tags, "challenge", i) && e.tags[i][1] == challenge
  {
    FirstTagIsFirst(e.tags, "challenge");
    if NoneNamed(e.tags, "challenge") {
      assert !HasTag(e.tags, "challenge");
    } else {
      var i := FirstNamedExists(e.tags, "challenge");
      assert IsTagOf(e.tags[i], "challenge");
      forall k | FirstNamed(e.tags, "challenge", k) ensures k == i {
      }
    }
    if i :| 0 <= i < |e.tags| && |e.tags[i]| >= 2 && e.tags[i][0] == "relay" {
      assert IsTagOf(e.tags[i], "relay");
    }
  }

  method IsValidSignedAuthEvent(e: Event, challenge: string) returns (valid: bool)
    ensures valid <==> Answers(e, challenge)
    ensures valid
            <==> e.kind == 22242
                 && (exists i | 0 <= i < |e.tags| :: |e.tags[i]| >= 2 && e.tags[i][0] == "relay")
                 && exists i :: FirstNamed(e.tags, "challenge", i) && e.tags[i][1] == challenge
  {
    AnswersExactly(e, challenge);
    var signed := IsSignedAuthEvent(e);
    if !signed {
      return false;
    }
    FirstTagIsFirst(e.tags, "challenge");
    ghost var i := FirstNamedExists(e.tags, "challenge");
    var tag := FirstTag(e.tags, "challenge");
    return tag.value[1] == challenge;
  }

  // ----- the connection's state -----

  datatype Challenge = Challenge(createdAt: int, text: string)

  datatype State = State(challenge: Option<Challenge>, authenticated: bool)

  const INITIAL := State(None, false)

  /** Ten minutes, in milliseconds */
  const RESPONSE_TIME := 1000 * 60 * 10

  /**
   Steps that touch it: a message that needs authentication arrives, with the time and the challenge that
   would be issued; or the strategy of an AUTH message that passed the acceptance gates executes.
   */
  datatype Step = Arrive(now: int, nonce: string) | Execute(event: Event, now: int)

  /** isAuthenticationRequired, for an EVENT with authentication enabled. */
  predicate Blocked(s: State) {
    !s.authenticated
  }

  /** Whether the strategy accepts; without an issued challenge it throws instead. */
  predicate Accepts(s: State, e: Event, now: int) {
    s.challenge.Some? && Answers(e, s.challenge.value.text) && s.challenge.value.createdAt + RESPONSE_TIME > now
  }

  function Next(s: State, step: Step): State {
    match step
    case Arrive(now, nonce) => if Blocked(s) then s.(challenge := Some(Challenge(now, nonce))) else s
    case Execute(e, now) => if Accepts(s, e, now) then State(None, true) else s
  }

  function Run(steps: seq<Step>): State {
    if steps == [] then INITIAL else Next(Run(steps[..|steps| - 1]), steps[|steps| - 1])
  }

  // ----- over every run -----

  /** Step k issued a challenge: an EVENT arrived and was turned away. */
  predicate Issues(steps: seq<Step>, k: nat) {
    k < |steps| && steps[k].Arrive? && Blocked(Run(steps[..k]))
  }

  /** Step k is the latest to have issued a challenge before step j. */
  ghost predicate LatestIssue(steps: seq<Step>, k: nat, j: nat) {
    k < j <= |steps| && Issues(steps, k) && forall i: nat | k < i < j :: !Issues(steps, i)
  }

  /** Step j accepted an AUTH event that answers the latest challenge within ten minutes. */
  ghost predicate Authenticates(steps: seq<Step>, j: nat, k: nat) {
    && j < |steps| && steps[j].Execute? && LatestIssue(steps, k, j)
    && Answers(steps[j].event, steps[k].nonce)
    && steps[j].now < steps[k].now + 600000
  }

  lemma RunStep(steps: seq<Step>, n: nat)
    requires n < |steps|
    ensures Run(steps[..n + 1]) == Next(Run(steps[..n]), steps[n])
  {
    assert steps[..n + 1][..n] == steps[..n];
  }

  lemma LatestStays(steps: seq<Step>, k: nat, n: nat)
    requires LatestIssue(steps, k, n) && n < |steps| && !Issues(steps, n)
    ensures LatestIssue(steps, k, n + 1)
  {
    hide Issues;
  }

  /** The challenge held after n steps is the one issued last. */
  lemma {:induction false} ChallengeIsLatest(steps: seq<Step>, n: nat)
    requires n <= |steps| && Run(steps[..n]).challenge.Some?
    ensures exists k: nat :: LatestIssue(steps, k, n)
              && Run(steps[..n]).challenge.value == Challenge(steps[k].now, steps[k].nonce)
  {
    hide Answers;
    if n > 0 {
      RunStep(steps, n - 1);
      if Issues(steps, n - 1) {
        assert LatestIssue(steps, n - 1, n);
      } else {
        hide Run;
        ChallengeIsLatest(steps, n - 1);
        var k: nat :| LatestIssue(steps, k, n - 1)
          && Run(steps[..n - 1]).challenge.value == Challenge(steps[k].now, steps[k].nonce);
        LatestStays(steps, k, n - 1);
      }
    }
  }

  /** The flag is set only by accepting an answer to the latest challenge in time. */
  lemma {:induction false} AuthenticatedByAnswer(steps: seq<Step>, n: nat)
    requires n <= |steps| && Run(steps[..n]).authenticated
    ensures exists j: nat, k: nat :: j < n && Authenticates(steps, j, k)
  {
    hide Answers;
    if n > 0 {
      RunStep(steps, n - 1);
      if Run(steps[..n - 1]).authenticated {
        AuthenticatedByAnswer(steps, n - 1);
      } else {
        ChallengeIsLatest(steps, n - 1);
        var k: nat :| LatestIssue(steps, k, n - 1)
          && Run(steps[..n - 1]).challenge.value == Challenge(steps[k].now, steps[k].nonce);
        assert Authenticates(steps, n - 1, k);
      }
    }
  }

  /** An EVENT gets past the gate only after an AUTH event that answered the latest challenge in time. */
  lemma EventNeedsAnswer(steps: seq<Step>, n: nat)
    requires n < |steps| && steps[n].Arrive? && !Blocked(Run(steps[..n]))
    ensures exists j: nat, k: nat :: j < n && Authenticates(steps, j, k)
  {
    AuthenticatedByAnswer(steps, n);
  }

  /** Once set, the flag stays set and no challenge is ever held again. */
  lemma {:induction false} AuthenticationStays(steps: seq<Step>, n: nat, m: nat)
    requires n <= m <= |steps| && Run(steps[..n]) == State(None, true)
    ensures Run(steps[..m]) == State(None, true)
  {
    if n < m {
      AuthenticationStays(steps, n, m - 1);
      RunStep(steps, m - 1);
    }
  }

  /** At most one AUTH event of a connection is ever accepted, so an accepted challenge is spent. */
  lemma ChallengeIsSpent(steps: seq<Step>, j: nat, m: nat)
    requires j < m < |steps| && steps[j].Execute? && steps[m].Execute?
    requires Accepts(Run(steps[..j]), steps[j].event, steps[j].now)
    ensures !Accepts(Run(steps[..m]), steps[m].event, steps[m].now)
    ensures Run(steps[..m]).authenticated
  {
    RunStep(steps, j);
    AuthenticationStays(steps, j + 1, m);
  }

  /** A challenge that was issued last is held, as long as the connection is not authenticated. */
  lemma {:induction false} LatestIsHeld(steps: seq<Step>, k: nat, n: nat)
    requires LatestIssue(steps, k, n) && !Run(steps[..n]).authenticated
    ensures Run(steps[..n]).challenge == Some(Challenge(steps[k].now, steps[k].nonce))
    decreases n
  {
    hide Answers;
    RunStep(steps, n - 1);
    if k < n - 1 {
      assert LatestIssue(steps, k, n - 1);
      assert !Issues(steps, n - 1);
      LatestIsHeld(steps, k, n - 1);
    }
  }

  /**
   A connection is authenticated exactly when some AUTH event answered the challenge issued last before it,
   less than 600000 milliseconds after it was issued.
   */
  lemma {:induction false} AuthenticatedExactly(steps: seq<Step>, n: nat)
    requires n <= |steps|
    ensures Run(steps[..n]).authenticated <==> exists j: nat, k: nat :: j < n && Authenticates(steps, j, k)
  {
    hide Answers, LatestIssue;
    if Run(steps[..n]).authenticated {
      AuthenticatedByAnswer(steps, n);
    }
    if j: nat, k: nat :| j < n && Authenticates(steps, j, k) {
      AnswerIsAccepted(steps, j, k);
      AuthenticatedPersists(steps, j + 1, n);
    }
  }

  lemma AnswerIsAccepted(steps: seq<Step>, j: nat, k: nat)
    requires Authenticates(steps, j, k)
    ensures Run(steps[..j + 1]).authenticated
  {
    hide Answers;
    RunStep(steps, j);
    if !Run(steps[..j]).authenticated {
      LatestIsHeld(steps, k, j);
    }
  }

  lemma {:induction false} AuthenticatedPersists(steps: seq<Step>, n: nat, m: nat)
    requires n <= m <= |steps| && Run(steps[..n]).authenticated
    ensures Run(steps[..m]).authenticated
  {
    if n < m {
      AuthenticatedPersists(steps, n, m - 1);
      RunStep(steps, m - 1);
    }
  }

  /** An EVENT is let through exactly on an authenticated connection; any other gets a new challenge. */
  lemma EventPassesExactly(steps: seq<Step>, n: nat)
    requires n < |steps| && steps[n].Arrive?
    ensures !Blocked(Run(steps[..n])) <==> exists j: nat, k: nat :: j < n && Authenticates(steps, j, k)
    ensures Blocked(Run(steps[..n])) ==>
              Run(steps[..n + 1]) == State(Some(Challenge(steps[n].now, steps[n].nonce)), false)
    ensures !Blocked(Run(steps[..n])) ==> Run(steps[..n + 1]) == Run(steps[..n])
  {
    hide Authenticates;
    AuthenticatedExactly(steps, n);
    RunStep(steps, n);
  }
}
