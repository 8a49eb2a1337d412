/** The timers of one run loop, from src/thread/timer_schedule.h: which is claimed next, what a pass over
    them claims, and how far apart a repeating timer fires. */
module Timers {
  import opened Wrappers
  import opened Deadline

  /** An installed timer and the deadline it is next due at. */
  datatype Slot = Slot(id: nat, repeats: bool, interval: int, deadline: int)

  predicate IsCandidate(s: Slot, boundary: int, handled: seq<nat>) {
    s.deadline <= boundary && s.id !in handled
  }

  /** The place of the earliest candidate, the first of equals, or -1. */
  function Pick(slots: seq<Slot>, boundary: int, handled: seq<nat>): (i: int)
    ensures -1 <= i < |slots|
    ensures i == -1 ==> forall j :: 0 <= j < |slots| ==> !IsCandidate(slots[j], boundary, handled)
    ensures i >= 0 ==> IsCandidate(slots[i], boundary, handled)
    ensures i >= 0 ==> forall j :: 0 <= j < |slots| && IsCandidate(slots[j], boundary, handled) ==>
                                     slots[i].deadline <= slots[j].deadline && (j < i ==> slots[i].deadline < slots[j].deadline)
  {
    if slots == [] then -1
    else
      var n := |slots| - 1;
      var i := Pick(slots[..n], boundary, handled);
      if IsCandidate(slots[n], boundary, handled) && (i == -1 || slots[n].deadline < slots[i].deadline) then n else i
  }

  function Without(slots: seq<Slot>, i: nat): seq<Slot>
    requires i < |slots|
  {
    slots[..i] + slots[i + 1..]
  }

  /** The slots once one is claimed: due again an interval later, or gone. */
  function AfterClaim(slots: seq<Slot>, i: nat, at: int): seq<Slot>
    requires i < |slots|
  {
    if slots[i].repeats then slots[i := slots[i].(deadline := After(at, slots[i].interval))]
    else Without(slots, i)
  }

  function IndexOf(slots: seq<Slot>, id: nat): (i: nat)
    ensures i <= |slots| && (i < |slots| ==> slots[i].id == id) && forall j :: 0 <= j < i ==> slots[j].id != id
  {
    if slots == [] || slots[0].id == id then 0 else 1 + IndexOf(slots[1..], id)
  }

  /** The least deadline, or the largest time point. */
  function EarliestOf(slots: seq<Slot>): (t: int)
    ensures t <= MAX_TIME && forall s :: s in slots ==> t <= s.deadline
    ensures t == MAX_TIME || exists s :: s in slots && s.deadline == t
  {
    if slots == [] then MAX_TIME
    else
      var n := |slots| - 1;
      var t := EarliestOf(slots[..n]);
      if slots[n].deadline < t then slots[n].deadline else t
  }

  /** The schedule of src/thread/timer_schedule.h. */
  class TimerSchedule {
    var slots: seq<Slot>

    constructor ()
      ensures slots == []
    {
      slots := [];
    }

    method Install(which: Slot)
      modifies this
      ensures slots == old(slots) + [which]
    {
      slots := slots + [which];
    }

    method Remove(id: nat) returns (removed: Option<Slot>)
      modifies this
      ensures var i := IndexOf(old(slots), id);
        if i == |old(slots)| then removed == None && slots == old(slots)
        else removed == Some(old(slots)[i]) && slots == Without(old(slots), i)
    {
      var i := 0;
      while i < |slots| && slots[i].id != id
        invariant i <= |slots| && slots == old(slots) && forall j :: 0 <= j < i ==> slots[j].id != id
      {
        i := i + 1;
      }
      FoundAt(slots, id, i);
      if i == |slots| {
        return None;
      }
      removed := Some(slots[i]);
      slots := slots[..i] + slots[i + 1..];
    }

    method RemoveAll() returns (removed: seq<Slot>)
      modifies this
      ensures removed == old(slots) && slots == []
    {
      removed := slots;
      slots := [];
    }

    /** The earliest deadline, or the largest time point. */
    method Earliest() returns (earliest: int)
      requires forall s :: s in slots ==> s.deadline <= MAX_TIME
      ensures earliest == EarliestOf(slots)
      ensures forall s :: s in slots ==> earliest <= s.deadline
      ensures earliest == MAX_TIME || exists s :: s in slots && s.deadline == earliest
    {
      earliest := MAX_TIME;
      for i := 0 to |slots|
        invariant forall j :: 0 <= j < i ==> earliest <= slots[j].deadline
        invariant earliest == MAX_TIME || exists s :: s in slots && s.deadline == earliest
        invariant earliest == EarliestOf(slots[..i])
      {
        assert slots[..i + 1][..i] == slots[..i];
        if slots[i].deadline < earliest {
          earliest := slots[i].deadline;
          assert slots[i] in slots;
        }
      }
      assert slots[..|slots|] == slots;
    }

    /** take_due() */
    method TakeDue(boundary: int, claimedAt: int, handled: seq<nat>)
      returns (which: Option<Slot>, handledNow: seq<nat>)
      modifies this
      ensures var i := Pick(old(slots), boundary, handled);
        if i == -1 then which == None && slots == old(slots) && handledNow == handled
        else which == Some(old(slots)[i]) && slots == AfterClaim(old(slots), i, claimedAt)
             && handledNow == handled + [old(slots)[i].id]
    {
      var earliest := -1;
      for it := 0 to |slots|
        invariant slots == old(slots) && earliest == Pick(slots[..it], boundary, handled)
      {
        assert slots[..it + 1][..it] == slots[..it];
        if slots[it].deadline > boundary || slots[it].id in handled {
          continue;
        }
        if earliest == -1 || slots[it].deadline < slots[earliest].deadline {
          earliest := it;
        }
      }
      assert slots[..|slots|] == slots;
      if earliest == -1 {
        return None, handled;
      }
      which := Some(slots[earliest]);
      handledNow := handled + [slots[earliest].id];
      if slots[earliest].repeats {
        slots := slots[earliest := slots[earliest].(deadline := After(claimedAt, slots[earliest].interval))];
      } else {
        slots := slots[..earliest] + slots[earliest + 1..];
      }
    }
  }

  lemma FoundAt(slots: seq<Slot>, id: nat, i: nat)
    requires i <= |slots| && (i < |slots| ==> slots[i].id == id) && forall j :: 0 <= j < i ==> slots[j].id != id
    ensures IndexOf(slots, id) == i
  {
  }

  // ---- a pass claims what was due, in the order of a stable sort ----

  predicate DistinctIds(slots: seq<Slot>) {
    forall i, j :: 0 <= i < j < |slots| ==> slots[i].id != slots[j].id
  }

  /** The candidates, in slot order. */
  function Due(slots: seq<Slot>, boundary: int, handled: seq<nat>): seq<Slot> {
    if slots == [] then []
    else (if IsCandidate(slots[0], boundary, handled) then [slots[0]] else []) + Due(slots[1..], boundary, handled)
  }

  function WithDeadline(slots: seq<Slot>, t: int): seq<Slot> {
    if slots == [] then []
    else (if slots[0].deadline == t then [slots[0]] else []) + WithDeadline(slots[1..], t)
  }

  predicate SortedByDeadline(slots: seq<Slot>) {
    forall i, j :: 0 <= i < j < |slots| ==> slots[i].deadline <= slots[j].deadline
  }

  /** Sorted, with the timers of each deadline the same and in the same order. */
  ghost predicate IsStableSort(sorted: seq<Slot>, slots: seq<Slot>) {
    SortedByDeadline(sorted) && forall t :: WithDeadline(sorted, t) == WithDeadline(slots, t)
  }

  datatype Claim = Claim(slot: Slot, at: int)

  function Claimed(claims: seq<Claim>): (s: seq<Slot>)
    ensures |s| == |claims|
  {
    if claims == [] then [] else [claims[0].slot] + Claimed(claims[1..])
  }

  /** The claims of taking what is due until nothing is, whenever each was made. */
  predicate Drains(slots: seq<Slot>, boundary: int, handled: seq<nat>, claims: seq<Claim>)
    decreases claims
  {
    var i := Pick(slots, boundary, handled);
    if i == -1 then claims == []
    else
      && claims != [] && claims[0].slot == slots[i]
      && Drains(AfterClaim(slots, i, claims[0].at), boundary, handled + [slots[i].id], claims[1..])
  }

  lemma {:induction false} DueConcat(a: seq<Slot>, b: seq<Slot>, boundary: int, handled: seq<nat>)
    ensures Due(a + b, boundary, handled) == Due(a, boundary, handled) + Due(b, boundary, handled)
  {
    if a == [] {
      assert a + b == b;
    } else {
      var h := if IsCandidate(a[0], boundary, handled) then [a[0]] else [];
      assert (a + b)[0] == a[0] && (a + b)[1..] == a[1..] + b;
      DueConcat(a[1..], b, boundary, handled);
      assert h + (Due(a[1..], boundary, handled) + Due(b, boundary, handled))
          == h + Due(a[1..], boundary, handled) + Due(b, boundary, handled);
    }
  }

  lemma {:induction false} WithConcat(a: seq<Slot>, b: seq<Slot>, t: int)
    ensures WithDeadline(a + b, t) == WithDeadline(a, t) + WithDeadline(b, t)
  {
    if a == [] {
      assert a + b == b;
    } else {
      var h := if a[0].deadline == t then [a[0]] else [];
      assert (a + b)[0] == a[0] && (a + b)[1..] == a[1..] + b;
      WithConcat(a[1..], b, t);
      assert h + (WithDeadline(a[1..], t) + WithDeadline(b, t)) == h + WithDeadline(a[1..], t) + WithDeadline(b, t);
    }
  }

  lemma {:induction false} DueSame(slots: seq<Slot>, boundary: int, handled: seq<nat>, id: nat)
    requires forall s :: s in slots ==> s.id != id
    ensures Due(slots, boundary, handled + [id]) == Due(slots, boundary, handled)
  {
    if slots != [] {
      assert slots[0] in slots;
      DueSame(slots[1..], boundary, handled, id);
    }
  }

  lemma {:induction false} DueIsCandidate(slots: seq<Slot>, boundary: int, handled: seq<nat>, s: Slot)
    ensures s in Due(slots, boundary, handled) <==> s in slots && IsCandidate(s, boundary, handled)
  {
    if slots != [] {
      DueIsCandidate(slots[1..], boundary, handled, s);
    }
  }

  lemma {:induction false} NoneDue(slots: seq<Slot>, boundary: int, handled: seq<nat>)
    requires forall j :: 0 <= j < |slots| ==> !IsCandidate(slots[j], boundary, handled)
    ensures Due(slots, boundary, handled) == []
  {
    if slots != [] {
      NoneDue(slots[1..], boundary, handled);
    }
  }

  lemma {:induction false} InWith(slots: seq<Slot>, t: int, s: Slot)
    ensures s in WithDeadline(slots, t) <==> s in slots && s.deadline == t
  {
    if slots != [] {
      InWith(slots[1..], t, s);
    }
  }

  /** What is due after a claim: what was due, without the one claimed, even if it is due again already. */
  lemma ClaimLeaves(slots: seq<Slot>, i: nat, at: int, boundary: int, handled: seq<nat>)
    requires DistinctIds(slots) && i < |slots|
    ensures var a, b := slots[..i], slots[i + 1..];
      Due(AfterClaim(slots, i, at), boundary, handled + [slots[i].id])
      == Due(a, boundary, handled) + Due(b, boundary, handled)
  {
    hide *;
    OthersDiffer(slots, i);
    ClaimParts(slots, i, at);
    DueOfParts(slots[..i], Again(slots[i], at), slots[i + 1..], slots[i].id, boundary, handled);
  }

  /** The slot a repeating timer is put back into. */
  function Again(s: Slot, at: int): (again: seq<Slot>)
    ensures again == [] || (|again| == 1 && again[0].id == s.id)
  {
    if s.repeats then [s.(deadline := After(at, s.interval))] else []
  }

  lemma ClaimParts(slots: seq<Slot>, i: nat, at: int)
    requires i < |slots|
    ensures AfterClaim(slots, i, at) == slots[..i] + (Again(slots[i], at) + slots[i + 1..])
  {
    hide After;
  }

  lemma DueOfParts(a: seq<Slot>, again: seq<Slot>, b: seq<Slot>, id: nat, boundary: int, handled: seq<nat>)
    requires forall s :: s in a ==> s.id != id
    requires forall s :: s in b ==> s.id != id
    requires again == [] || (|again| == 1 && again[0].id == id)
    ensures Due(a + (again + b), boundary, handled + [id]) == Due(a, boundary, handled) + Due(b, boundary, handled)
  {
    hide Due;
    var now := handled + [id];
    DueSame(a, boundary, handled, id);
    DueSame(b, boundary, handled, id);
    DueConcat(a, again + b, boundary, now);
    DueConcat(again, b, boundary, now);
    ClaimedIsHandled(again, id, boundary, handled);
    assert [] + Due(b, boundary, now) == Due(b, boundary, now);
  }

  lemma ClaimedIsHandled(again: seq<Slot>, id: nat, boundary: int, handled: seq<nat>)
    requires again == [] || (|again| == 1 && again[0].id == id)
    ensures Due(again, boundary, handled + [id]) == []
  {
  }

  lemma OthersDiffer(slots: seq<Slot>, i: nat)
    requires DistinctIds(slots) && i < |slots|
    ensures forall s :: s in slots[..i] ==> s.id != slots[i].id
    ensures forall s :: s in slots[i + 1..] ==> s.id != slots[i].id
  {
  }

  lemma DueFirst(x: Slot, b: seq<Slot>, boundary: int, handled: seq<nat>)
    ensures Due([x] + b, boundary, handled)
            == (if IsCandidate(x, boundary, handled) then [x] else []) + Due(b, boundary, handled)
  {
    assert ([x] + b)[1..] == b;
  }

  lemma DueAround(slots: seq<Slot>, i: nat, boundary: int, handled: seq<nat>)
    requires i < |slots| && IsCandidate(slots[i], boundary, handled)
    ensures Due(slots, boundary, handled)
            == Due(slots[..i], boundary, handled) + [slots[i]] + Due(slots[i + 1..], boundary, handled)
  {
    hide Due;
    var a, b := slots[..i], slots[i + 1..];
    assert slots == a + ([slots[i]] + b);
    DueConcat(a, [slots[i]] + b, boundary, handled);
    DueFirst(slots[i], b, boundary, handled);
  }

  /** Putting the first of the earliest in front keeps a stable sort. */
  lemma FrontOfSort(a: seq<Slot>, x: Slot, b: seq<Slot>, sorted: seq<Slot>)
    requires IsStableSort(sorted, a + b)
    requires forall s :: s in a ==> x.deadline < s.deadline
    requires forall s :: s in b ==> x.deadline <= s.deadline
    ensures IsStableSort([x] + sorted, a + [x] + b)
  {
    var out := [x] + sorted;
    forall t ensures WithDeadline(out, t) == WithDeadline(a + [x] + b, t) {
      WithConcat([x], sorted, t);
      WithConcat(a + [x], b, t);
      WithConcat(a, [x], t);
      WithConcat(a, b, t);
      if t == x.deadline {
        NoneWith(a, t);
      }
    }
    forall j | 0 < j < |out| ensures x.deadline <= out[j].deadline {
      var s := sorted[j - 1];
      InWith(sorted, s.deadline, s);
      InWith(a + b, s.deadline, s);
    }
  }

  lemma {:induction false} NoneWith(a: seq<Slot>, t: int)
    requires forall s :: s in a ==> t < s.deadline
    ensures WithDeadline(a, t) == []
  {
    if a != [] {
      assert a[0] in a;
      NoneWith(a[1..], t);
    }
  }

  lemma DistinctAfter(slots: seq<Slot>, i: nat, at: int)
    requires DistinctIds(slots) && i < |slots|
    ensures DistinctIds(AfterClaim(slots, i, at))
  {
  }

  /** Draining what is due claims every timer that was due once, in the order of a stable sort by
      deadline, whatever the times of the claims and however soon a repeating timer is due again. */
  lemma {:induction false} DrainIsStableSort(slots: seq<Slot>, boundary: int, handled: seq<nat>, claims: seq<Claim>)
    requires DistinctIds(slots) && Drains(slots, boundary, handled, claims)
    ensures IsStableSort(Claimed(claims), Due(slots, boundary, handled))
    ensures |claims| == |Due(slots, boundary, handled)|
    decreases claims
  {
    var i := Pick(slots, boundary, handled);
    if i == -1 {
      NoneDue(slots, boundary, handled);
    } else {
      var a, b := Due(slots[..i], boundary, handled), Due(slots[i + 1..], boundary, handled);
      var rest := AfterClaim(slots, i, claims[0].at);
      DistinctAfter(slots, i, claims[0].at);
      ClaimLeaves(slots, i, claims[0].at, boundary, handled);
      DueAround(slots, i, boundary, handled);
      DrainIsStableSort(rest, boundary, handled + [slots[i].id], claims[1..]);
      EarliestOfDue(slots, i, boundary, handled);
      FrontOfSort(a, slots[i], b, Claimed(claims[1..]));
    }
  }

  lemma EarliestOfDue(slots: seq<Slot>, i: nat, boundary: int, handled: seq<nat>)
    requires i < |slots| && i == Pick(slots, boundary, handled)
    ensures forall s :: s in Due(slots[..i], boundary, handled) ==> slots[i].deadline < s.deadline
    ensures forall s :: s in Due(slots[i + 1..], boundary, handled) ==> slots[i].deadline <= s.deadline
  {
    forall s | s in Due(slots[..i], boundary, handled) ensures slots[i].deadline < s.deadline {
      DueIsCandidate(slots[..i], boundary, handled, s);
      var j :| 0 <= j < i && slots[..i][j] == s;
      assert slots[j] == s;
    }
    forall s | s in Due(slots[i + 1..], boundary, handled) ensures slots[i].deadline <= s.deadline {
      DueIsCandidate(slots[i + 1..], boundary, handled, s);
      var j :| 0 <= j < |slots| - i - 1 && slots[i + 1..][j] == s;
      assert slots[i + 1 + j] == s;
    }
  }

  function Later(clock: nat -> int): nat -> int {
    (k: nat) => clock(k + 1)
  }

  /** Whatever the clock reads at each claim, a drain ends. */
  lemma {:induction false} DrainEnds(slots: seq<Slot>, boundary: int, handled: seq<nat>, clock: nat -> int)
    returns (claims: seq<Claim>)
    requires DistinctIds(slots)
    ensures Drains(slots, boundary, handled, claims)
    ensures forall k :: 0 <= k < |claims| ==> claims[k].at == clock(k)
    decreases |Due(slots, boundary, handled)|
  {
    var i := Pick(slots, boundary, handled);
    if i == -1 {
      claims := [];
    } else {
      hide Due, AfterClaim;
      DistinctAfter(slots, i, clock(0));
      ClaimLeaves(slots, i, clock(0), boundary, handled);
      DueAround(slots, i, boundary, handled);
      var rest := DrainEnds(AfterClaim(slots, i, clock(0)), boundary, handled + [slots[i].id], Later(clock));
      claims := [Claim(slots[i], clock(0))] + rest;
      assert claims[1..] == rest;
    }
  }

  // ---- no catching up ----

  /** What happens to a schedule: a claim has a boundary, the time it is made and the ids of its pass. */
  datatype Event =
    | Installed(slot: Slot)
    | Removed(id: nat)
    | Take(boundary: int, at: int, handled: seq<nat>)

  function Happen(slots: seq<Slot>, e: Event): seq<Slot> {
    match e
    case Installed(s) => slots + [s]
    case Removed(id) => var i := IndexOf(slots, id); if i == |slots| then slots else Without(slots, i)
    case Take(boundary, at, handled) =>
      var i := Pick(slots, boundary, handled); if i == -1 then slots else AfterClaim(slots, i, at)
  }

  function ClaimedBy(slots: seq<Slot>, e: Event): Option<Slot> {
    match e
    case Take(boundary, at, handled) =>
      var i := Pick(slots, boundary, handled); if i == -1 then None else Some(slots[i])
    case _ => None
  }

  function Schedule(slots: seq<Slot>, events: seq<Event>): seq<Slot> {
    if events == [] then slots else Happen(Schedule(slots, events[..|events| - 1]), events[|events| - 1])
  }

  /** Claims are made as a clock goes on, never before their boundary, and no timer is installed again. */
  predicate Timely(events: seq<Event>, from: int, id: nat) {
    forall k :: 0 <= k < |events| ==>
                  match events[k]
                  case Installed(s) => s.id != id
                  case Removed(_) => true
                  case Take(boundary, at, _) => from <= at <= LIMIT && boundary <= at
  }

  predicate NotBefore(slots: seq<Slot>, id: nat, interval: int, deadline: int) {
    forall s :: s in slots && s.id == id ==> s.interval == interval && s.deadline >= deadline
  }

  lemma HappenKeeps(slots: seq<Slot>, e: Event, id: nat, interval: int, from: int)
    requires 0 <= from <= LIMIT && NotBefore(slots, id, interval, After(from, interval)) && Timely([e], from, id)
    ensures NotBefore(Happen(slots, e), id, interval, After(from, interval))
  {
    assert e == [e][0];
    match e {
      case Installed(_) =>
      case Removed(_) =>
      case Take(boundary, at, handled) =>
        AfterGrows(from, at, interval);
    }
  }

  lemma {:induction false} ScheduleKeeps(slots: seq<Slot>, events: seq<Event>, id: nat, interval: int, from: int)
    requires 0 <= from <= LIMIT && NotBefore(slots, id, interval, After(from, interval)) && Timely(events, from, id)
    ensures NotBefore(Schedule(slots, events), id, interval, After(from, interval))
  {
    if events != [] {
      var n := |events| - 1;
      ScheduleKeeps(slots, events[..n], id, interval, from);
      assert [events[n]][0] == events[n];
      HappenKeeps(Schedule(slots, events[..n]), events[n], id, interval, from);
    }
  }

  /** Once a repeating timer is claimed, no later claim of it is made before its interval has passed,
      however late the first was and whatever happens in between. */
  lemma NoCatchUp(slots: seq<Slot>, first: Event, between: seq<Event>, second: Event)
    requires DistinctIds(slots) && first.Take? && second.Take? && 0 <= first.at <= LIMIT
    requires ClaimedBy(slots, first).Some? && ClaimedBy(slots, first).value.repeats
    requires Timely(between + [second], first.at, ClaimedBy(slots, first).value.id)
    requires var later := Schedule(Happen(slots, first), between);
      ClaimedBy(later, second).Some? && ClaimedBy(later, second).value.id == ClaimedBy(slots, first).value.id
    ensures second.at >= After(first.at, ClaimedBy(slots, first).value.interval)
  {
    var x := ClaimedBy(slots, first).value;
    var i := Pick(slots, first.boundary, first.handled);
    assert NotBefore(Happen(slots, first), x.id, x.interval, After(first.at, x.interval));
    assert forall k :: 0 <= k < |between| ==> (between + [second])[k] == between[k];
    ScheduleKeeps(Happen(slots, first), between, x.id, x.interval, first.at);
    assert (between + [second])[|between|] == second;
    assert ClaimedBy(Schedule(Happen(slots, first), between), second).value
        in Schedule(Happen(slots, first), between);
  }
}
