/** The DNS record-set reconciliation of network/dns.go: `UpdateDNS` diffs one
    desired record set against the zone's listing, submits at most one change,
    polls it to completion and optionally waits for the largest TTL involved. */
module Dns {
  import opened Base

  /** A Cloud DNS resource record set. */
  datatype RecordSet = RecordSet(name: string, rtype: string, ttl: int, rrdatas: seq<string>)

  /** A zone change: the record sets to add and to delete, applied atomically. */
  datatype Change = Change(additions: seq<RecordSet>, deletions: seq<RecordSet>)

  /** A listed record set that `UpdateDNS` considers: same name and type. */
  predicate SameKey(v: RecordSet, desired: RecordSet)
  {
    v.name == desired.name && v.rtype == desired.rtype
  }

  /** A listed record set that makes the addition unnecessary: same key, TTL and data. */
  predicate Identical(v: RecordSet, desired: RecordSet)
  {
    SameKey(v, desired) && v.ttl == desired.ttl && v.rrdatas == desired.rrdatas
  }

  predicate HasIdentical(existing: seq<RecordSet>, desired: RecordSet)
  {
    exists j :: 0 <= j < |existing| && Identical(existing[j], desired)
  }

  /** The listed record sets with the desired name and type, in listing order. */
  function Matching(existing: seq<RecordSet>, desired: RecordSet): seq<RecordSet>
  {
    if existing == [] then []
    else
      Matching(existing[..|existing| - 1], desired)
      + (if SameKey(existing[|existing| - 1], desired) then [existing[|existing| - 1]] else [])
  }

  /** The deletions `UpdateDNS` stages: every matching record set except the first
      identical one, which is kept in place of the addition. */
  function Deletions(existing: seq<RecordSet>, desired: RecordSet): seq<RecordSet>
  {
    if existing == [] then []
    else
      var prefix, v := existing[..|existing| - 1], existing[|existing| - 1];
      if !SameKey(v, desired) || (Identical(v, desired) && !HasIdentical(prefix, desired)) then
        Deletions(prefix, desired)
      else
        Deletions(prefix, desired) + [v]
  }

  /** The TTL `UpdateDNS` waits for: the larger of the desired TTL and the TTLs of
      the matching listed record sets. */
  function MaxTtl(existing: seq<RecordSet>, desired: RecordSet): int
  {
    if existing == [] then desired.ttl
    else
      var m, v := MaxTtl(existing[..|existing| - 1], desired), existing[|existing| - 1];
      if SameKey(v, desired) && v.ttl > m then v.ttl else m
  }

  /** The change that `UpdateDNS` builds from a listing. */
  function Staged(existing: seq<RecordSet>, desired: RecordSet): Change
  {
    Change(if HasIdentical(existing, desired) then [] else [desired], Deletions(existing, desired))
  }

  /** The diff loop of `UpdateDNS`: walks the listing once, raising `maxTtl`, and either
      drops the pending addition (an identical record set is kept) or stages a deletion. */
  method StageChange(existing: seq<RecordSet>, desired: RecordSet) returns (chg: Change, maxTtl: int)
    ensures chg == Staged(existing, desired)
    ensures maxTtl == MaxTtl(existing, desired)
  {
    chg := Change([desired], []);
    maxTtl := desired.ttl;
    var i := 0;
    while i < |existing|
      invariant 0 <= i <= |existing|
      invariant maxTtl == MaxTtl(existing[..i], desired)
      invariant chg.deletions == Deletions(existing[..i], desired)
      invariant chg.additions == if HasIdentical(existing[..i], desired) then [] else [desired]
    {
      var v := existing[i];
      assert existing[..i + 1][..i] == existing[..i];
      if v.name == desired.name && v.rtype == desired.rtype {
        if v.ttl > maxTtl {
          maxTtl := v.ttl;
        }
        if |chg.additions| == 1 && chg.additions[0].ttl == v.ttl && chg.additions[0].rrdatas == v.rrdatas {
          chg := chg.(additions := chg.additions[..0]);
        } else {
          chg := chg.(deletions := chg.deletions + [v]);
        }
      }
      assert HasIdentical(existing[..i + 1], desired) <==>
        HasIdentical(existing[..i], desired) || Identical(v, desired);
      i := i + 1;
    }
    assert existing[..i] == existing;
  }

  lemma {:induction false} MaxTtlBounds(existing: seq<RecordSet>, desired: RecordSet)
    ensures MaxTtl(existing, desired) >= desired.ttl
    ensures forall j :: 0 <= j < |existing| && SameKey(existing[j], desired) ==>
      MaxTtl(existing, desired) >= existing[j].ttl
  {
    if existing != [] {
      var prefix := existing[..|existing| - 1];
      MaxTtlBounds(prefix, desired);
      assert forall j :: 0 <= j < |prefix| ==> prefix[j] == existing[j];
    }
  }

  lemma {:induction false} MaxTtlAttained(existing: seq<RecordSet>, desired: RecordSet)
    ensures MaxTtl(existing, desired) == desired.ttl ||
      exists j :: 0 <= j < |existing| && SameKey(existing[j], desired) && existing[j].ttl == MaxTtl(existing, desired)
  {
    if existing != [] {
      var prefix := existing[..|existing| - 1];
      MaxTtlAttained(prefix, desired);
      if MaxTtl(existing, desired) != desired.ttl && MaxTtl(existing, desired) == MaxTtl(prefix, desired) {
        var j :| 0 <= j < |prefix| && SameKey(prefix[j], desired) && prefix[j].ttl == MaxTtl(prefix, desired);
        assert existing[j] == prefix[j];
      }
    }
  }

  /** `maxTtl` is the maximum of the desired TTL and of the TTLs of the matching
      listed record sets (network/dns.go:84-91). */
  lemma MaxTtlIsMaximum(existing: seq<RecordSet>, desired: RecordSet)
    ensures MaxTtl(existing, desired) >= desired.ttl
    ensures forall j :: 0 <= j < |existing| && SameKey(existing[j], desired) ==>
      MaxTtl(existing, desired) >= existing[j].ttl
    ensures MaxTtl(existing, desired) == desired.ttl ||
      exists j :: 0 <= j < |existing| && SameKey(existing[j], desired) && existing[j].ttl == MaxTtl(existing, desired)
  {
    MaxTtlBounds(existing, desired);
    MaxTtlAttained(existing, desired);
  }

  /** Record sets with another name or type affect neither the change nor `maxTtl`. */
  lemma {:induction false} OtherRecordsIgnored(existing: seq<RecordSet>, v: RecordSet, desired: RecordSet)
    requires !SameKey(v, desired)
    ensures Deletions(existing + [v], desired) == Deletions(existing, desired)
    ensures MaxTtl(existing + [v], desired) == MaxTtl(existing, desired)
    ensures HasIdentical(existing + [v], desired) == HasIdentical(existing, desired)
    ensures Matching(existing + [v], desired) == Matching(existing, desired)
  {
    assert (existing + [v])[..|existing|] == existing;
    if HasIdentical(existing + [v], desired) {
      var j :| 0 <= j < |existing + [v]| && Identical((existing + [v])[j], desired);
      assert j < |existing| && existing[j] == (existing + [v])[j];
    }
  }

  lemma {:induction false} DeletionsAreMatching(existing: seq<RecordSet>, desired: RecordSet)
    ensures !HasIdentical(existing, desired) ==> Deletions(existing, desired) == Matching(existing, desired)
    ensures HasIdentical(existing, desired) ==> |Deletions(existing, desired)| + 1 == |Matching(existing, desired)|
  {
    if existing != [] {
      var prefix, v := existing[..|existing| - 1], existing[|existing| - 1];
      DeletionsAreMatching(prefix, desired);
      assert HasIdentical(prefix, desired) ==> HasIdentical(existing, desired) by {
        if HasIdentical(prefix, desired) {
          var j :| 0 <= j < |prefix| && Identical(prefix[j], desired);
          assert existing[j] == prefix[j];
        }
      }
      assert HasIdentical(existing, desired) ==> HasIdentical(prefix, desired) || Identical(v, desired) by {
        if HasIdentical(existing, desired) {
          var j :| 0 <= j < |existing| && Identical(existing[j], desired);
          if j < |prefix| { assert prefix[j] == existing[j]; }
        }
      }
    }
  }

  /** Deletions are exactly the matching record sets, in listing order, with the first
      identical one taken out (network/dns.go:92-100): every later identical duplicate
      is deleted too. */
  lemma {:induction false} DeletionsSplit(existing: seq<RecordSet>, desired: RecordSet, k: nat)
    requires k < |existing| && Identical(existing[k], desired)
    requires forall j :: 0 <= j < k ==> !Identical(existing[j], desired)
    ensures Deletions(existing, desired) == Matching(existing[..k], desired) + Matching(existing[k + 1..], desired)
  {
    var prefix, v := existing[..|existing| - 1], existing[|existing| - 1];
    assert !HasIdentical(existing[..k], desired);
    if k == |existing| - 1 {
      assert prefix == existing[..k];
      DeletionsAreMatching(prefix, desired);
      assert existing[k + 1..] == [];
    } else {
      assert prefix[k] == existing[k];
      DeletionsSplit(prefix, desired, k);
      assert prefix[..k] == existing[..k];
      assert HasIdentical(prefix, desired);
      var tail := existing[k + 1..];
      assert tail[..|tail| - 1] == prefix[k + 1..];
      assert tail[|tail| - 1] == v;
    }
  }

  /** The no-op short-circuit fires exactly when the listing holds one record set with
      the desired name and type and it is identical to the desired one (network/dns.go:109-111). */
  lemma NoOpIffSingleIdentical(existing: seq<RecordSet>, desired: RecordSet)
    ensures (Staged(existing, desired) == Change([], [])) <==>
      (|Matching(existing, desired)| == 1 && Identical(Matching(existing, desired)[0], desired))
  {
    DeletionsAreMatching(existing, desired);
    MatchingAllSameKey(existing, desired);
    if |Matching(existing, desired)| == 1 && Identical(Matching(existing, desired)[0], desired) {
      IdenticalInMatching(existing, desired);
    }
  }

  lemma {:induction false} MatchingAllSameKey(existing: seq<RecordSet>, desired: RecordSet)
    ensures forall j :: 0 <= j < |Matching(existing, desired)| ==> SameKey(Matching(existing, desired)[j], desired)
    ensures |Matching(existing, desired)| <= |existing|
  {
    if existing != [] {
      MatchingAllSameKey(existing[..|existing| - 1], desired);
    }
  }

  lemma {:induction false} IdenticalInMatching(existing: seq<RecordSet>, desired: RecordSet)
    ensures HasIdentical(existing, desired) <==>
      exists j :: 0 <= j < |Matching(existing, desired)| && Identical(Matching(existing, desired)[j], desired)
  {
    if existing != [] {
      var prefix, v := existing[..|existing| - 1], existing[|existing| - 1];
      IdenticalInMatching(prefix, desired);
      var mp := Matching(prefix, desired);
      var m := Matching(existing, desired);
      assert forall j :: 0 <= j < |mp| ==> m[j] == mp[j];
      if HasIdentical(existing, desired) {
        var j :| 0 <= j < |existing| && Identical(existing[j], desired);
        if j < |prefix| { assert prefix[j] == existing[j]; } else { assert m[|m| - 1] == v; }
      }
      if exists j :: 0 <= j < |m| && Identical(m[j], desired) {
        var j :| 0 <= j < |m| && Identical(m[j], desired);
        if j < |mp| {
          assert HasIdentical(prefix, desired);
          var i :| 0 <= i < |prefix| && Identical(prefix[i], desired);
          assert existing[i] == prefix[i];
        } else {
          assert Identical(existing[|existing| - 1], desired);
        }
      }
    }
  }

  /** At most one addition, and when there is one it is the desired record set. */
  lemma AtMostOneAddition(existing: seq<RecordSet>, desired: RecordSet)
    ensures |Staged(existing, desired).additions| <= 1
    ensures forall a :: a in Staged(existing, desired).additions ==> a == desired
    ensures Staged(existing, desired).additions == [] <==> HasIdentical(existing, desired)
  {
  }

  // ---------------------------------------------------------------------------
  // Polling a change until it is done

  /** One thing `pollCompletion`'s select can observe: the context is done, or the
      ticker fired and `Changes.Get` answered with a status or an error. */
  datatype PollEvent = ContextDone(err: Error) | Tick(get: Result<string, Error>)

  datatype PollResult = Completed | Failed(err: Error) | Cancelled(err: Error) | StillPending

  predicate Terminal(e: PollEvent)
  {
    match e
    case ContextDone(_) => true
    case Tick(Err(_)) => true
    case Tick(Ok(status)) => status == "done"
  }

  function Verdict(e: PollEvent): PollResult
  {
    match e
    case ContextDone(err) => Cancelled(err)
    case Tick(Err(err)) => Failed(err)
    case Tick(Ok(_)) => Completed
  }

  /** Index of the first terminal event, or `|events|` when there is none. */
  function FirstTerminal(events: seq<PollEvent>): (k: nat)
    ensures k <= |events|
    ensures forall j :: 0 <= j < k ==> events[j].Tick? && !Terminal(events[j])
    ensures k < |events| ==> Terminal(events[k])
  {
    if events == [] || Terminal(events[0]) then 0 else 1 + FirstTerminal(events[1..])
  }

  /** What `pollCompletion` returns after the events: the verdict of the first terminal one. */
  function PollVerdict(events: seq<PollEvent>): PollResult
  {
    var k := FirstTerminal(events);
    if k == |events| then StillPending else Verdict(events[k])
  }

  /** How many `Changes.Get` calls `pollCompletion` makes: one per tick up to and
      including the terminal one; a cancellation makes none. */
  function GetCount(events: seq<PollEvent>): nat
  {
    var k := FirstTerminal(events);
    if k == |events| then k else if events[k].ContextDone? then k else k + 1
  }

  /** `pollCompletion`: consumes events until the first terminal one, calling
      `Changes.Get` once per tick. */
  method PollCompletion(events: seq<PollEvent>) returns (r: PollResult, gets: nat)
    ensures r == PollVerdict(events)
    ensures gets == GetCount(events)
  {
    var i := 0;
    gets := 0;
    while i < |events|
      invariant i <= |events|
      invariant forall j :: 0 <= j < i ==> events[j].Tick? && !Terminal(events[j])
      invariant gets == i
    {
      match events[i]
      case ContextDone(err) =>
        FirstTerminalAt(events, i);
        return Cancelled(err), gets;
      case Tick(reply) =>
        gets := gets + 1;
        match reply
        case Err(err) =>
          FirstTerminalAt(events, i);
          return Failed(err), gets;
        case Ok(status) =>
          if status == "done" {
            FirstTerminalAt(events, i);
            return Completed, gets;
          }
      i := i + 1;
    }
    FirstTerminalAt(events, i);
    r := StillPending;
  }

  lemma {:induction false} FirstTerminalAt(events: seq<PollEvent>, i: nat)
    requires i <= |events|
    requires forall j :: 0 <= j < i ==> !Terminal(events[j])
    requires i < |events| ==> Terminal(events[i])
    ensures FirstTerminal(events) == i
  {
    if i > 0 {
      FirstTerminalAt(events[1..], i - 1);
    }
  }

  /** `pollCompletion` reports success only after a `Get` answered "done"; a `Get`
      error is returned at once and the context's error on cancellation
      (network/dns.go:61-74). */
  lemma PollSemantics(events: seq<PollEvent>)
    ensures PollVerdict(events) == Completed <==>
      exists k :: 0 <= k < |events| && events[k] == Tick(Ok("done")) &&
        forall j :: 0 <= j < k ==> events[j].Tick? && !Terminal(events[j])
    ensures forall e :: PollVerdict(events) == Failed(e) <==>
      exists k :: 0 <= k < |events| && events[k] == Tick(Err(e)) &&
        forall j :: 0 <= j < k ==> events[j].Tick? && !Terminal(events[j])
    ensures forall e :: PollVerdict(events) == Cancelled(e) <==>
      exists k :: 0 <= k < |events| && events[k] == ContextDone(e) &&
        forall j :: 0 <= j < k ==> events[j].Tick? && !Terminal(events[j])
  {
    var k0 := FirstTerminal(events);
    forall k | 0 <= k < |events| && Terminal(events[k]) &&
        (forall j :: 0 <= j < k ==> events[j].Tick? && !Terminal(events[j]))
      ensures k == k0
    {
      FirstTerminalAt(events, k);
    }
  }

  // ---------------------------------------------------------------------------
  // UpdateDNS

  /** The provider interactions of one `UpdateDNS` call, in order. */
  datatype Call = List | Create(change: Change) | Get | Sleep(seconds: int)

  datatype Outcome = Success | Failure(err: Error) | Polling

  function Gets(n: nat): (calls: seq<Call>)
    ensures |calls| == n && forall c :: c in calls ==> c == Get
  {
    if n == 0 then [] else [Get] + Gets(n - 1)
  }

  /** How a poll result surfaces from `UpdateDNS`. */
  function Surface(r: PollResult): Outcome
  {
    match r
    case Completed => Success
    case Failed(err) => Failure(err)
    case Cancelled(err) => Failure(err)
    case StillPending => Polling
  }

  /** `UpdateDNS`, with the provider replaced by its answers: the (flattened) listing,
      the error of `Changes.Create` if any, and the events the poll observes. */
  method UpdateDns(desired: RecordSet, waitPropagation: bool, listed: Result<seq<RecordSet>, Error>,
                   created: Option<Error>, events: seq<PollEvent>)
    returns (outcome: Outcome, calls: seq<Call>)
    ensures listed.Err? ==> outcome == Failure(listed.error) && calls == [List]
    ensures listed.Ok? && Staged(listed.value, desired) == Change([], []) ==>
      outcome == Success && calls == [List]
    ensures listed.Ok? && Staged(listed.value, desired) != Change([], []) && created.Some? ==>
      outcome == Failure(created.value) && calls == [List, Create(Staged(listed.value, desired))]
    ensures listed.Ok? && Staged(listed.value, desired) != Change([], []) && created.None? ==>
      outcome == Surface(PollVerdict(events)) &&
      calls == [List, Create(Staged(listed.value, desired))] + Gets(GetCount(events)) +
        (if waitPropagation && outcome == Success then [Sleep(MaxTtl(listed.value, desired))] else [])
  {
    if listed.Err? {
      return Failure(listed.error), [List];
    }
    var chg, maxTtl := StageChange(listed.value, desired);
    if |chg.additions| == 0 && |chg.deletions| == 0 {
      return Success, [List];
    }
    calls := [List, Create(chg)];
    if created.Some? {
      return Failure(created.value), calls;
    }
    var r, gets := PollCompletion(events);
    calls := calls + Gets(gets);
    match r
    case Completed =>
      if waitPropagation {
        calls := calls + [Sleep(maxTtl)];
      }
      outcome := Success;
    case Failed(err) =>
      outcome := Failure(err);
    case Cancelled(err) =>
      outcome := Failure(err);
    case StillPending =>
      outcome := Polling;
  }

  /** The propagation wait happens only when asked for and only after the change
      completed; every error path returns before it (network/dns.go:105-129). */
  lemma SleepOnlyAfterCompletion(desired: RecordSet, waitPropagation: bool, existing: seq<RecordSet>,
                                 events: seq<PollEvent>)
    requires Staged(existing, desired) != Change([], [])
    ensures var calls := [List, Create(Staged(existing, desired))] + Gets(GetCount(events)) +
        (if waitPropagation && Surface(PollVerdict(events)) == Success then [Sleep(MaxTtl(existing, desired))] else []);
      (exists j :: 0 <= j < |calls| && calls[j].Sleep?) <==>
        waitPropagation &&
        exists k :: 0 <= k < |events| && events[k] == Tick(Ok("done")) &&
          forall j :: 0 <= j < k ==> events[j].Tick? && !Terminal(events[j])
  {
    PollSemantics(events);
    var calls := [List, Create(Staged(existing, desired))] + Gets(GetCount(events));
    assert forall j :: 0 <= j < |calls| ==> !calls[j].Sleep? by {
      forall j | 0 <= j < |calls| ensures !calls[j].Sleep? {
        if j >= 2 { assert calls[j] in Gets(GetCount(events)); }
      }
    }
    if waitPropagation && Surface(PollVerdict(events)) == Success {
      var all := calls + [Sleep(MaxTtl(existing, desired))];
      assert all[|all| - 1].Sleep?;
    }
    assert Surface(PollVerdict(events)) == Success <==> PollVerdict(events) == Completed;
  }

  // ---------------------------------------------------------------------------
  // The documented scenarios

  /** A listing that already holds the desired record set leads to no change. */
  lemma IdenticalRecordIsKept()
    ensures var r := RecordSet("rover.example.com.", "A", 60, ["1.2.3.4"]);
      Staged([r], r) == Change([], [])
  {
    var r := RecordSet("rover.example.com.", "A", 60, ["1.2.3.4"]);
    assert [r][..0] == [];
    assert Identical([r][0], r);
  }

  /** A listing with an outdated record set leads to one deletion and one addition,
      and the wait uses the larger, old TTL. */
  lemma OutdatedRecordIsReplaced()
    ensures var old_ := RecordSet("rover.example.com.", "A", 300, ["5.6.7.8"]);
      var new_ := RecordSet("rover.example.com.", "A", 60, ["1.2.3.4"]);
      Staged([old_], new_) == Change([new_], [old_]) && MaxTtl([old_], new_) == 300
  {
    var old_ := RecordSet("rover.example.com.", "A", 300, ["5.6.7.8"]);
    var new_ := RecordSet("rover.example.com.", "A", 60, ["1.2.3.4"]);
    assert [old_][..0] == [];
    assert !HasIdentical([old_], new_);
  }

  /** Without a record set of the desired name and type, the change only adds. */
  lemma NoMatchOnlyAdds(existing: seq<RecordSet>, desired: RecordSet)
    requires forall j :: 0 <= j < |existing| ==> !SameKey(existing[j], desired)
    ensures Staged(existing, desired) == Change([desired], [])
  {
    DeletionsAreMatching(existing, desired);
    NoMatchEmpty(existing, desired);
  }

  lemma {:induction false} NoMatchEmpty(existing: seq<RecordSet>, desired: RecordSet)
    requires forall j :: 0 <= j < |existing| ==> !SameKey(existing[j], desired)
    ensures Matching(existing, desired) == []
  {
    if existing != [] {
      NoMatchEmpty(existing[..|existing| - 1], desired);
    }
  }
}
