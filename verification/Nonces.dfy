/** Device login: the mutex-guarded map of pending nonces. */
module Nonces {
  import opened Wrappers

  /** How long a challenge lasts, in nanoseconds. */
  const NONCE_TTL: nat := 60_000_000_000

  /** Pending nonces by public key, with the time they were issued. */
  type Pending = map<string, (string, nat)>

  /** Which texts are public keys and which signatures verify: foreign code, arbitrary here. */
  datatype Keys = Keys(valid: string -> bool, verifies: (string, string, string) -> bool)

  datatype Lookup = Found | Missing | Broken

  /** A request in the order in which the map's lock was taken. `at` is the clock when the map is searched
      or pruned, `issued` the later reading that is stored with a new nonce. */
  datatype Event =
    | Challenge(key: string, device: Lookup, nonce: string, at: nat, issued: nat)
    | Login(key: string, signature: string, at: nat, device: Lookup, stored: bool)

  datatype Answer = Nonce(nonce: string) | Token | InvalidKey | UnknownDevice | NoChallenge | BadSignature | Internal

  /** `Instant::elapsed`, which saturates. */
  function Elapsed(since: nat, now: nat): nat { if now < since then 0 else now - since }

  function Pruned(m: Pending, now: nat): Pending { map k | k in m && Elapsed(m[k].1, now) < NONCE_TTL :: m[k] }

  predicate Issues(keys: Keys, e: Event) { e.Challenge? && keys.valid(e.key) && e.device == Found }

  /** Whether a request replaces or consumes what is pending for a key. */
  predicate Touches(keys: Keys, e: Event, key: string) {
    e.key == key && (Issues(keys, e) || (e.Login? && keys.valid(key)))
  }

  // ----- one request, with or without the cleanup -----

  /** The map after a request. */
  function After(keys: Keys, m: Pending, e: Event, prune: bool): Pending {
    if Issues(keys, e) then (if prune then Pruned(m, e.at) else m)[e.key := (e.nonce, e.issued)]
    else if Touches(keys, e, e.key) && e.key in m then m - {e.key}
    else m
  }

  /** The answer to a request. */
  function Reply(keys: Keys, m: Pending, e: Event): Answer {
    if !keys.valid(e.key) then InvalidKey
    else if e.Challenge? then (match e.device case Found => Nonce(e.nonce) case Missing => UnknownDevice case Broken => Internal)
    else if e.key !in m || Elapsed(m[e.key].1, e.at) >= NONCE_TTL then NoChallenge
    else if !keys.verifies(e.key, e.signature, m[e.key].0) then BadSignature
    else match e.device
      case Found => if e.stored then Token else Internal
      case Missing => UnknownDevice
      case Broken => Internal
  }

  // ----- the code -----

  class NonceMap {
    var nonces: Pending

    constructor ()
      ensures nonces == map[]
    {
      nonces := map[];
    }

    /** `device_challenge`. */
    method DeviceChallenge(keys: Keys, e: Event) returns (r: Answer)
      requires e.Challenge?
      modifies this
      ensures nonces == After(keys, old(nonces), e, true) && r == Reply(keys, old(nonces), e)
      ensures r.Nonce? <==> keys.valid(e.key) && e.device == Found
      ensures r.Nonce? ==> e.key in nonces && nonces[e.key] == (r.nonce, e.issued)
      ensures !r.Nonce? ==> nonces == old(nonces) && r == if !keys.valid(e.key) then InvalidKey else if e.device == Missing then UnknownDevice else Internal
    {
      if !keys.valid(e.key) {
        return InvalidKey;
      }
      if e.device != Found {
        return if e.device == Missing then UnknownDevice else Internal;
      }
      nonces := map k | k in nonces && Elapsed(nonces[k].1, e.at) < NONCE_TTL :: nonces[k];
      nonces := nonces[e.key := (e.nonce, e.issued)];
      return Nonce(e.nonce);
    }

    /** `device_login`: the nonce is taken out of the map whatever becomes of the attempt. */
    method DeviceLogin(keys: Keys, e: Event) returns (r: Answer)
      requires e.Login?
      modifies this
      ensures nonces == After(keys, old(nonces), e, true) && r == Reply(keys, old(nonces), e)
      ensures nonces == if keys.valid(e.key) then old(nonces) - {e.key} else old(nonces)
      ensures r == if !keys.valid(e.key) then InvalidKey
                   else if e.key !in old(nonces) || e.at >= old(nonces)[e.key].1 + 60_000_000_000 then NoChallenge
                   else if !keys.verifies(e.key, e.signature, old(nonces)[e.key].0) then BadSignature
                   else if e.device == Missing then UnknownDevice
                   else if e.device == Found && e.stored then Token else Internal
    {
      if !keys.valid(e.key) {
        return InvalidKey;
      }
      if e.key !in nonces {
        return NoChallenge;
      }
      var (nonce, since) := nonces[e.key];
      nonces := nonces - {e.key};
      if Elapsed(since, e.at) >= NONCE_TTL {
        return NoChallenge;
      }
      if !keys.verifies(e.key, e.signature, nonce) {
        return BadSignature;
      }
      if e.device != Found {
        return if e.device == Missing then UnknownDevice else Internal;
      }
      return if e.stored then Token else Internal;
    }
  }

  // ----- runs of requests -----

  function MapAfter(keys: Keys, run: seq<Event>, prune: bool): Pending {
    if run == [] then map[] else After(keys, MapAfter(keys, run[..|run| - 1], prune), run[|run| - 1], prune)
  }

  /** The answer to the `i`-th request of a run. */
  function AnswerAt(keys: Keys, run: seq<Event>, i: nat, prune: bool): Answer
    requires i < |run|
  {
    Reply(keys, MapAfter(keys, run[..i], prune), run[i])
  }

  /** When the last reading of a request was taken. */
  function Clock(e: Event): nat { if e.Challenge? then e.issued else e.at }

  /** A monotonic clock, read in the order of the requests. */
  ghost predicate Monotonic(run: seq<Event>) {
    && (forall i :: 0 <= i < |run| ==> run[i].at <= Clock(run[i]))
    && forall i, j :: 0 <= i < j < |run| ==> Clock(run[i]) <= run[j].at
  }

  // ----- what the uncleaned map holds -----

  /** Request `i` issued the nonce that is pending for `key` after the run: nothing on the key came later. */
  ghost predicate IsPending(keys: Keys, run: seq<Event>, key: string, i: nat) {
    && i < |run| && run[i].key == key && Issues(keys, run[i])
    && forall j :: i < j < |run| ==> !Touches(keys, run[j], key)
  }

  lemma PendingNext(keys: Keys, run: seq<Event>, e: Event, key: string, i: nat)
    ensures IsPending(keys, run + [e], key, i) <==>
      if i == |run| then e.key == key && Issues(keys, e)
      else IsPending(keys, run, key, i) && !Touches(keys, e, key)
  {
    var next := run + [e];
    assert next[|run|] == e;
    assert forall j :: 0 <= j < |run| ==> next[j] == run[j];
    if IsPending(keys, next, key, i) && i < |run| {
      forall j | i < j < |run| ensures !Touches(keys, run[j], key) {
        assert next[j] == run[j];
      }
      assert !Touches(keys, next[|run|], key);
    }
  }

  ghost predicate Holds(keys: Keys, run: seq<Event>, m: Pending) {
    && (forall key :: key in m ==> exists i: nat :: IsPending(keys, run, key, i))
    && forall key, i: nat :: IsPending(keys, run, key, i) ==> key in m && m[key] == (run[i].nonce, run[i].issued)
  }

  lemma {:induction false} UncleanedHolds(keys: Keys, run: seq<Event>)
    ensures Holds(keys, run, MapAfter(keys, run, false))
  {
    if run != [] {
      var before, e := run[..|run| - 1], run[|run| - 1];
      UncleanedHolds(keys, before);
      HoldsNext(keys, before, e, MapAfter(keys, before, false));
      assert run == before + [e];
    }
  }

  lemma HoldsNext(keys: Keys, run: seq<Event>, e: Event, m: Pending)
    requires Holds(keys, run, m)
    ensures Holds(keys, run + [e], After(keys, m, e, false))
  {
    var m' := After(keys, m, e, false);
    forall key | key in m' ensures exists i: nat :: IsPending(keys, run + [e], key, i) {
      if key == e.key && Issues(keys, e) {
        PendingNext(keys, run, e, key, |run|);
      } else {
        var i: nat :| IsPending(keys, run, key, i);
        PendingNext(keys, run, e, key, i);
      }
    }
    forall key, i: nat | IsPending(keys, run + [e], key, i)
      ensures key in m' && m'[key] == ((run + [e])[i].nonce, (run + [e])[i].issued)
    {
      PendingNext(keys, run, e, key, i);
    }
  }

  // ----- the cleanup is unobservable -----

  /** The cleaned map lacks only nonces that no later login could use. */
  ghost predicate Cleaned(full: Pending, m: Pending, now: nat) {
    && (forall k :: k in m ==> k in full && m[k] == full[k])
    && forall k :: k in full && k !in m ==> full[k].1 + NONCE_TTL <= now
  }

  lemma CleanedNext(keys: Keys, full: Pending, m: Pending, now: nat, e: Event)
    requires Cleaned(full, m, now) && now <= e.at <= Clock(e)
    ensures Reply(keys, full, e) == Reply(keys, m, e)
    ensures Cleaned(After(keys, full, e, false), After(keys, m, e, true), Clock(e))
  {
  }

  ghost function Now(run: seq<Event>): nat { if run == [] then 0 else Clock(run[|run| - 1]) }

  lemma {:induction false} CleanedMap(keys: Keys, run: seq<Event>)
    requires Monotonic(run)
    ensures Cleaned(MapAfter(keys, run, false), MapAfter(keys, run, true), Now(run))
  {
    if run != [] {
      var before, e := run[..|run| - 1], run[|run| - 1];
      assert forall i :: 0 <= i < |before| ==> before[i] == run[i];
      CleanedMap(keys, before);
      CleanedNext(keys, MapAfter(keys, before, false), MapAfter(keys, before, true), Now(before), e);
    }
  }

  /** Every request of every run gets the answer it would get if expired nonces were never dropped. */
  lemma CleanupUnobservable(keys: Keys, run: seq<Event>, i: nat)
    requires Monotonic(run) && i < |run|
    ensures AnswerAt(keys, run, i, true) == AnswerAt(keys, run, i, false)
  {
    assert Monotonic(run[..i + 1]);
    assert run[..i + 1][..i] == run[..i];
    CleanedMap(keys, run[..i]);
    CleanedNext(keys, MapAfter(keys, run[..i], false), MapAfter(keys, run[..i], true), Now(run[..i]), run[i]);
  }

  // ----- which logins succeed -----

  /** Challenge `i` is what login `k` answers. */
  ghost predicate Answers(keys: Keys, run: seq<Event>, i: nat, k: nat)
    requires k < |run|
  {
    && i < k && run[k].Login? && IsPending(keys, run[..k], run[k].key, i)
    && Elapsed(run[i].issued, run[k].at) < NONCE_TTL
    && keys.verifies(run[k].key, run[k].signature, run[i].nonce)
  }

  /** A login gets a token exactly if its device is on record, the token can be stored, and it signs the
      nonce of a challenge for its key under 60 s old, with no request on that key in between. */
  lemma LoginIff(keys: Keys, run: seq<Event>, k: nat)
    requires Monotonic(run) && k < |run| && run[k].Login?
    ensures AnswerAt(keys, run, k, true) == Token
      <==> run[k].device == Found && run[k].stored && exists i: nat :: Answers(keys, run, i, k)
  {
    CleanupUnobservable(keys, run, k);
    UncleanedHolds(keys, run[..k]);
    var m, e := MapAfter(keys, run[..k], false), run[k];
    hide MapAfter;
    if AnswerAt(keys, run, k, false) == Token {
      var i: nat :| IsPending(keys, run[..k], e.key, i);
      assert run[..k][i] == run[i];
      assert Answers(keys, run, i, k);
    }
    if i: nat :| Answers(keys, run, i, k) {
      assert run[..k][i] == run[i];
    }
  }

  /** The challenges that successful logins answer are pairwise different: none serves twice. */
  lemma ChallengesServeOnce(keys: Keys, run: seq<Event>, j: nat, k: nat) returns (i: nat, l: nat)
    requires Monotonic(run) && j < k < |run| && run[j].Login? && run[k].Login?
    requires AnswerAt(keys, run, j, true) == Token && AnswerAt(keys, run, k, true) == Token
    ensures Answers(keys, run, i, j) && Answers(keys, run, l, k) && i != l
    ensures run[j].key == run[k].key ==> i < j < l < k
  {
    LoginIff(keys, run, j);
    LoginIff(keys, run, k);
    hide AnswerAt, Monotonic;
    i :| Answers(keys, run, i, j);
    l :| Answers(keys, run, l, k);
    assert run[..j][i] == run[i] && run[..k][l] == run[l];
    if run[j].key == run[k].key {
      assert Touches(keys, run[..k][j], run[k].key) by { assert run[..k][j] == run[j]; }
    }
  }

  // ----- what a device has to do for a token -----

  /** Request `i` answered with a nonce that login `k` signs within a minute, and nothing on the key came in
      between: no login, and no challenge that was answered with a nonce. */
  ghost predicate Signs(keys: Keys, run: seq<Event>, i: nat, k: nat)
    requires k < |run|
  {
    && i < k && run[i].Challenge? && run[i].key == run[k].key && run[k].Login?
    && AnswerAt(keys, run, i, true).Nonce?
    && keys.verifies(run[k].key, run[k].signature, AnswerAt(keys, run, i, true).nonce)
    && run[k].at < run[i].issued + 60_000_000_000
    && forall j :: i < j < k && run[j].key == run[k].key ==> run[j].Challenge? && !AnswerAt(keys, run, j, true).Nonce?
  }

  lemma NonceIff(keys: Keys, run: seq<Event>, i: nat)
    requires i < |run|
    ensures AnswerAt(keys, run, i, true).Nonce? <==> Issues(keys, run[i])
    ensures Issues(keys, run[i]) ==> AnswerAt(keys, run, i, true).nonce == run[i].nonce
  {
    hide MapAfter;
  }

  lemma SignsIsAnswers(keys: Keys, run: seq<Event>, i: nat, k: nat)
    requires Monotonic(run) && k < |run| && keys.valid(run[k].key)
    ensures Signs(keys, run, i, k) <==> Answers(keys, run, i, k)
  {
    hide AnswerAt, Issues;
    if i < k {
      NonceIff(keys, run, i);
      var seen := run[..k];
      assert forall j :: 0 <= j < k ==> seen[j] == run[j];
      forall j | i < j < k ensures (run[j].key == run[k].key ==> run[j].Challenge? && !AnswerAt(keys, run, j, true).Nonce?)
        <==> !Touches(keys, seen[j], run[k].key)
      {
        NonceIff(keys, run, j);
        IssuesChallenge(keys, run[j]);
      }
      IssuesChallenge(keys, run[i]);
    }
  }

  lemma IssuesChallenge(keys: Keys, e: Event)
    ensures Issues(keys, e) ==> e.Challenge?
  {
  }

  /** Told by the answers alone: a login gets a token exactly if its key is valid, its device is on record, the
      token can be stored, and it signs the nonce that the last challenge for its key was answered with, within
      a minute and as the first login since. */
  lemma TokenIff(keys: Keys, run: seq<Event>, k: nat)
    requires Monotonic(run) && k < |run| && run[k].Login?
    ensures AnswerAt(keys, run, k, true) == Token <==>
      keys.valid(run[k].key) && run[k].device == Found && run[k].stored && exists i: nat :: Signs(keys, run, i, k)
  {
    LoginIff(keys, run, k);
    hide Answers, Signs, MapAfter, Monotonic;
    if keys.valid(run[k].key) {
      forall i: nat ensures Signs(keys, run, i, k) <==> Answers(keys, run, i, k) {
        SignsIsAnswers(keys, run, i, k);
      }
    }
  }
}
