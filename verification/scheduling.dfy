/**
 * The meeting-slot suggestion engine (class SchedulingAlgorithm): candidate
 * slots are cut from the preferred ranges at a fixed stride, every slot is
 * scored against the participants' busy intervals, and the best five are
 * returned, highest score first.
 */
module Scheduling {
  import opened Wrappers

  /** Timestamps are milliseconds; durations are given in minutes. */
  const MinuteMillis: int := 60000
  /** Inside a preferred range the cursor advances by 15 minutes. */
  const StrideMillis: int := 900000
  /** At most this many suggestions are returned. */
  const MaxSuggestions: nat := 5

  /** Participant ids are compared through their string form. */
  type UserId = string

  /** A preferred window `[start, end)` supplied with the proposal. */
  datatype TimeRange = TimeRange(start: int, end: int)
  /** A candidate meeting `[start, end)`. */
  datatype Slot = Slot(start: int, end: int)
  /** An existing commitment of one participant. */
  datatype BusyTime = BusyTime(userId: UserId, start: int, end: int)
  /** The interval that makes one participant unavailable for a slot. */
  datatype Conflict = Conflict(userId: UserId, busyTime: BusyTime)
  /** The three human-readable descriptions a suggestion can carry. */
  datatype Description =
    | AllAvailable                 // every participant is free
    | NoneAvailable                // nobody is free
    | NeedRescheduling(count: int) // `count` participants must move something
  /** A scored candidate slot, as returned to the caller. */
  datatype Suggestion = Suggestion(start: int, end: int, score: int, description: Description, conflicts: seq<Conflict>)

  function Min(a: int, b: int): int { if a <= b then a else b }
  function Max(a: int, b: int): int { if a >= b then a else b }

  // ---------------------------------------------------------------------------
  // Slot generation
  // ---------------------------------------------------------------------------

  /** The slots one preferred range yields once its cursor has reached `t`. */
  function RangeSlots(t: int, rangeEnd: int, durationMillis: int): (r: seq<Slot>)
    ensures forall s :: s in r ==> s.end - s.start == durationMillis && t <= s.start && s.end <= rangeEnd
    decreases rangeEnd - durationMillis - t
  {
    if t + durationMillis <= rangeEnd then
      [Slot(t, t + durationMillis)] + RangeSlots(t + StrideMillis, rangeEnd, durationMillis)
    else
      []
  }

  /** All candidate slots: range by range in input order, each range in stride order. */
  function PossibleSlots(ranges: seq<TimeRange>, duration: int): (r: seq<Slot>)
    ensures forall s :: s in r ==> s.end - s.start == duration * MinuteMillis
  {
    if ranges == [] then []
    else
      var last := ranges[|ranges| - 1];
      PossibleSlots(ranges[..|ranges| - 1], duration) + RangeSlots(last.start, last.end, duration * MinuteMillis)
  }

  /** The k-th slot of a range starts k strides after the range start; the
      first k whose slot would run past the range end is the slot count. */
  lemma {:induction false} RangeSlotsAt(t: int, rangeEnd: int, durationMillis: int)
    ensures forall k :: 0 <= k < |RangeSlots(t, rangeEnd, durationMillis)| ==>
      RangeSlots(t, rangeEnd, durationMillis)[k] == Slot(t + k * StrideMillis, t + k * StrideMillis + durationMillis)
      && t + k * StrideMillis + durationMillis <= rangeEnd
    ensures t + |RangeSlots(t, rangeEnd, durationMillis)| * StrideMillis + durationMillis > rangeEnd
    ensures rangeEnd - t < durationMillis ==> RangeSlots(t, rangeEnd, durationMillis) == []
    decreases rangeEnd - durationMillis - t
  {
    if t + durationMillis <= rangeEnd {
      var rest := RangeSlots(t + StrideMillis, rangeEnd, durationMillis);
      RangeSlotsAt(t + StrideMillis, rangeEnd, durationMillis);
      var all := RangeSlots(t, rangeEnd, durationMillis);
      assert all == [Slot(t, t + durationMillis)] + rest;
      forall k | 0 <= k < |all|
        ensures all[k] == Slot(t + k * StrideMillis, t + k * StrideMillis + durationMillis)
        ensures t + k * StrideMillis + durationMillis <= rangeEnd
      {
        if k > 0 {
          assert all[k] == rest[k - 1];
          assert t + k * StrideMillis == (t + StrideMillis) + (k - 1) * StrideMillis;
        }
      }
      assert t + |all| * StrideMillis == (t + StrideMillis) + |rest| * StrideMillis;
    }
  }

  /** A slot lies inside a range. */
  predicate Within(s: Slot, r: TimeRange)
  {
    r.start <= s.start && s.end <= r.end
  }

  /** Every candidate slot has the meeting's length and lies inside one of the preferred ranges. */
  lemma {:induction false} PossibleSlotsFit(ranges: seq<TimeRange>, duration: int)
    ensures forall i :: 0 <= i < |PossibleSlots(ranges, duration)| ==>
      PossibleSlots(ranges, duration)[i].end - PossibleSlots(ranges, duration)[i].start == duration * MinuteMillis
      && exists j :: 0 <= j < |ranges| && Within(PossibleSlots(ranges, duration)[i], ranges[j])
  {
    if ranges != [] {
      var n := |ranges| - 1;
      var before := PossibleSlots(ranges[..n], duration);
      var own := RangeSlots(ranges[n].start, ranges[n].end, duration * MinuteMillis);
      PossibleSlotsFit(ranges[..n], duration);
      RangeSlotsAt(ranges[n].start, ranges[n].end, duration * MinuteMillis);
      var all := PossibleSlots(ranges, duration);
      assert all == before + own;
      forall i | 0 <= i < |all|
        ensures all[i].end - all[i].start == duration * MinuteMillis
        ensures exists j :: 0 <= j < |ranges| && Within(all[i], ranges[j])
      {
        if i < |before| {
          assert all[i] == before[i];
          var j :| 0 <= j < n && Within(before[i], ranges[..n][j]);
          assert ranges[..n][j] == ranges[j];
        } else {
          var k := i - |before|;
          assert all[i] == own[k];
          assert own[k].start >= ranges[n].start;
          assert Within(all[i], ranges[n]);
        }
      }
    }
  }

  /** Ranges are processed independently and in order; nothing is de-duplicated across them. */
  lemma {:induction false} PossibleSlotsAppend(a: seq<TimeRange>, b: seq<TimeRange>, duration: int)
    ensures PossibleSlots(a + b, duration) == PossibleSlots(a, duration) + PossibleSlots(b, duration)
    decreases |b|
  {
    if b == [] {
      assert a + b == a;
    } else {
      var n := |b| - 1;
      var last := RangeSlots(b[n].start, b[n].end, duration * MinuteMillis);
      assert (a + b)[..|a + b| - 1] == a + b[..n];
      assert (a + b)[|a + b| - 1] == b[n];
      assert PossibleSlots(a + b, duration) == PossibleSlots(a + b[..n], duration) + last;
      assert PossibleSlots(b, duration) == PossibleSlots(b[..n], duration) + last;
      PossibleSlotsAppend(a, b[..n], duration);
      ConcatAssoc3(PossibleSlots(a, duration), PossibleSlots(b[..n], duration), last);
    }
  }

  /** `_generatePossibleSlots`: a cursor walks each range in 15-minute steps. */
  method GeneratePossibleSlots(ranges: seq<TimeRange>, duration: int) returns (slots: seq<Slot>)
    ensures slots == PossibleSlots(ranges, duration)
  {
    slots := [];
    var durationMillis := duration * MinuteMillis;
    for i := 0 to |ranges|
      invariant slots == PossibleSlots(ranges[..i], duration)
    {
      var range := ranges[i];
      var current := range.start;
      ghost var done := slots;
      while current + durationMillis <= range.end
        invariant slots + RangeSlots(current, range.end, durationMillis)
               == done + RangeSlots(range.start, range.end, durationMillis)
        decreases range.end - durationMillis - current
      {
        slots := slots + [Slot(current, current + durationMillis)];
        current := current + StrideMillis;
      }
      assert ranges[..i + 1][..i] == ranges[..i];
    }
    assert ranges[..|ranges|] == ranges;
  }

  // ---------------------------------------------------------------------------
  // Availability
  // ---------------------------------------------------------------------------

  /** Strict half-open overlap of a slot with a busy interval. */
  predicate Overlaps(slot: Slot, busy: BusyTime)
    ensures slot.end == busy.start ==> !Overlaps(slot, busy)
    ensures busy.end == slot.start ==> !Overlaps(slot, busy)
    ensures Overlaps(slot, busy) ==> slot.start < slot.end || busy.start < busy.end
  {
    slot.start < busy.end && slot.end > busy.start
  }

  /** Instant `t` (a millisecond) lies in `[lo, hi)`. */
  predicate Covers(lo: int, hi: int, t: int)
  {
    lo <= t < hi
  }

  /** The overlap test holds exactly when slot and busy interval share a millisecond. */
  lemma OverlapsIffSharedInstant(slot: Slot, busy: BusyTime)
    requires slot.start < slot.end && busy.start < busy.end
    ensures Overlaps(slot, busy) <==>
      exists t :: Covers(slot.start, slot.end, t) && Covers(busy.start, busy.end, t)
  {
    if Overlaps(slot, busy) {
      var t := Max(slot.start, busy.start);
      assert Covers(slot.start, slot.end, t) && Covers(busy.start, busy.end, t);
    }
  }

  /** The busy intervals of one participant, in their original order. */
  function BusyOf(busyTimes: seq<BusyTime>, p: UserId): (mine: seq<BusyTime>)
    ensures forall b :: b in mine <==> b in busyTimes && b.userId == p
    ensures |mine| <= |busyTimes|
  {
    if busyTimes == [] then []
    else (if busyTimes[0].userId == p then [busyTimes[0]] else []) + BusyOf(busyTimes[1..], p)
  }

  /** The first interval of `mine` that overlaps the slot, if any. */
  function FirstOverlap(slot: Slot, mine: seq<BusyTime>): (r: Option<BusyTime>)
    ensures r.None? <==> forall b :: b in mine ==> !Overlaps(slot, b)
    ensures r.Some? ==> exists k :: 0 <= k < |mine| && mine[k] == r.value && Overlaps(slot, mine[k])
                                    && forall j :: 0 <= j < k ==> !Overlaps(slot, mine[j])
  {
    if mine == [] then None
    else if Overlaps(slot, mine[0]) then
      Some(mine[0])
    else
      var r := FirstOverlap(slot, mine[1..]);
      assert r.Some? ==> exists k :: 1 <= k < |mine| && mine[k] == r.value && Overlaps(slot, mine[k])
                                     && forall j :: 0 <= j < k ==> !Overlaps(slot, mine[j]) by {
        if r.Some? {
          var k' :| 0 <= k' < |mine[1..]| && mine[1..][k'] == r.value && Overlaps(slot, mine[1..][k'])
            && forall j :: 0 <= j < k' ==> !Overlaps(slot, mine[1..][j]);
          assert mine[k' + 1] == r.value;
          forall j | 0 <= j < k' + 1 ensures !Overlaps(slot, mine[j]) {
            if j > 0 { assert mine[j] == mine[1..][j - 1]; }
          }
        }
      }
      r
  }

  /** The interval recorded against participant `p`: the first of their busy
      intervals (in input order) that overlaps the slot; None when `p` is free. */
  function ParticipantConflict(slot: Slot, busyTimes: seq<BusyTime>, p: UserId): (r: Option<BusyTime>)
    ensures r.None? <==> forall b :: b in busyTimes && b.userId == p ==> !Overlaps(slot, b)
    ensures r.Some? ==> exists k :: 0 <= k < |busyTimes| && busyTimes[k] == r.value && IsFirstOverlapOf(slot, busyTimes, p, k)
  {
    FirstOverlapOfBusy(slot, busyTimes, p);
    FirstOverlap(slot, BusyOf(busyTimes, p))
  }

  /** `busyTimes[k]` is `p`'s and overlaps the slot, and no earlier interval of
      `p` does. */
  predicate IsFirstOverlapOf(slot: Slot, busyTimes: seq<BusyTime>, p: UserId, k: nat)
    requires k < |busyTimes|
  {
    busyTimes[k].userId == p && Overlaps(slot, busyTimes[k])
    && forall j :: 0 <= j < k && busyTimes[j].userId == p ==> !Overlaps(slot, busyTimes[j])
  }

  /** Filtering keeps input order, so the first overlap among `p`'s intervals is
      the first overlapping interval of `p` in the whole busy list. */
  lemma {:induction false} FirstOverlapOfBusy(slot: Slot, busyTimes: seq<BusyTime>, p: UserId)
    ensures var r := FirstOverlap(slot, BusyOf(busyTimes, p));
            r.Some? ==> exists k :: 0 <= k < |busyTimes| && busyTimes[k] == r.value && IsFirstOverlapOf(slot, busyTimes, p, k)
  {
    if busyTimes != [] {
      var h, t := busyTimes[0], busyTimes[1..];
      var r := FirstOverlap(slot, BusyOf(busyTimes, p));
      var rt := FirstOverlap(slot, BusyOf(t, p));
      if h.userId == p && Overlaps(slot, h) {
        assert BusyOf(busyTimes, p) == [h] + BusyOf(t, p);
        assert IsFirstOverlapOf(slot, busyTimes, p, 0);
      } else {
        if h.userId == p {
          var mine := [h] + BusyOf(t, p);
          assert BusyOf(busyTimes, p) == mine;
          assert mine[1..] == BusyOf(t, p);
        } else {
          assert BusyOf(busyTimes, p) == [] + BusyOf(t, p) == BusyOf(t, p);
        }
        assert r == rt;
        FirstOverlapOfBusy(slot, t, p);
        if rt.Some? {
          var k :| 0 <= k < |t| && t[k] == rt.value && IsFirstOverlapOf(slot, t, p, k);
          assert busyTimes[k + 1] == t[k];
          forall j | 0 <= j < k + 1 && busyTimes[j].userId == p
            ensures !Overlaps(slot, busyTimes[j])
          {
            if j > 0 {
              assert busyTimes[j] == t[j - 1];
            }
          }
          assert IsFirstOverlapOf(slot, busyTimes, p, k + 1);
        }
      }
    }
  }

  /** Filtering distributes over concatenation: the order of the input is kept. */
  lemma {:induction false} BusyOfAppend(a: seq<BusyTime>, b: seq<BusyTime>, p: UserId)
    ensures BusyOf(a + b, p) == BusyOf(a, p) + BusyOf(b, p)
  {
    if a == [] {
      assert a + b == b;
    } else {
      assert (a + b)[1..] == a[1..] + b;
      BusyOfAppend(a[1..], b, p);
    }
  }

  /** A participant whose busy intervals all end by the slot's start or begin at
      or after its end -- touching the slot at an endpoint included -- is available. */
  lemma AbuttingIntervalsLeaveAvailable(slot: Slot, busyTimes: seq<BusyTime>, p: UserId)
    requires forall b :: b in busyTimes && b.userId == p ==> b.end <= slot.start || b.start >= slot.end
    ensures ParticipantConflict(slot, busyTimes, p) == None
  {
  }

  /** The conflicts list: one entry per unavailable participant, in participant order. */
  function Conflicts(slot: Slot, busyTimes: seq<BusyTime>, participantIds: seq<UserId>): (cs: seq<Conflict>)
    ensures |cs| <= |participantIds|
    ensures forall c :: c in cs ==>
      c.userId in participantIds && ParticipantConflict(slot, busyTimes, c.userId) == Some(c.busyTime)
  {
    if participantIds == [] then []
    else
      var n := |participantIds| - 1;
      var before := Conflicts(slot, busyTimes, participantIds[..n]);
      match ParticipantConflict(slot, busyTimes, participantIds[n])
      case None => before
      case Some(b) => before + [Conflict(participantIds[n], b)]
  }

  /** The number of participants (counted with repetition) with no overlapping busy interval. */
  function AvailableCount(slot: Slot, busyTimes: seq<BusyTime>, participantIds: seq<UserId>): (n: nat)
    ensures n <= |participantIds|
  {
    if participantIds == [] then 0
    else
      var n := |participantIds| - 1;
      AvailableCount(slot, busyTimes, participantIds[..n])
        + (if ParticipantConflict(slot, busyTimes, participantIds[n]).None? then 1 else 0)
  }

  /** For each participant position, whether that participant is free. */
  function FreeFlags(slot: Slot, busyTimes: seq<BusyTime>, participantIds: seq<UserId>): (flags: seq<bool>)
  {
    seq(|participantIds|, i requires 0 <= i < |participantIds| =>
      ParticipantConflict(slot, busyTimes, participantIds[i]).None?)
  }

  /** The counter is the number of participant positions whose participant has
      no overlapping busy interval. */
  lemma {:induction false} AvailableCountIsFreeFlags(slot: Slot, busyTimes: seq<BusyTime>, participantIds: seq<UserId>)
    ensures AvailableCount(slot, busyTimes, participantIds) == multiset(FreeFlags(slot, busyTimes, participantIds))[true]
  {
    if participantIds != [] {
      var n := |participantIds| - 1;
      AvailableCountIsFreeFlags(slot, busyTimes, participantIds[..n]);
      assert FreeFlags(slot, busyTimes, participantIds)
          == FreeFlags(slot, busyTimes, participantIds[..n])
             + [ParticipantConflict(slot, busyTimes, participantIds[n]).None?];
    }
  }

  /** The conflicts of a concatenation of participant lists are the conflicts of
      the parts, in the same order. */
  lemma {:induction false} ConflictsAppend(slot: Slot, busyTimes: seq<BusyTime>, a: seq<UserId>, b: seq<UserId>)
    ensures Conflicts(slot, busyTimes, a + b) == Conflicts(slot, busyTimes, a) + Conflicts(slot, busyTimes, b)
    decreases |b|
  {
    if b == [] {
      assert a + b == a;
    } else {
      var n := |b| - 1;
      var r := ParticipantConflict(slot, busyTimes, b[n]);
      var e := if r.None? then [] else [Conflict(b[n], r.value)];
      assert (a + b)[..|a + b| - 1] == a + b[..n];
      assert (a + b)[|a + b| - 1] == b[n];
      assert Conflicts(slot, busyTimes, a + b) == Conflicts(slot, busyTimes, a + b[..n]) + e;
      assert Conflicts(slot, busyTimes, b) == Conflicts(slot, busyTimes, b[..n]) + e;
      ConflictsAppend(slot, busyTimes, a, b[..n]);
      ConcatAssoc3(Conflicts(slot, busyTimes, a), Conflicts(slot, busyTimes, b[..n]), e);
    }
  }

  /** A single participant contributes one entry, their first overlapping
      interval, when they are unavailable, and nothing otherwise. */
  lemma ConflictsSingle(slot: Slot, busyTimes: seq<BusyTime>, p: UserId)
    ensures var r := ParticipantConflict(slot, busyTimes, p);
            Conflicts(slot, busyTimes, [p]) == if r.None? then [] else [Conflict(p, r.value)]
  {
    assert [p][..0] == [];
  }

  /** Every unavailable participant has an entry recording their first overlapping interval. */
  lemma ConflictsCover(slot: Slot, busyTimes: seq<BusyTime>, participantIds: seq<UserId>)
    ensures forall i :: 0 <= i < |participantIds| && ParticipantConflict(slot, busyTimes, participantIds[i]).Some? ==>
              Conflict(participantIds[i], ParticipantConflict(slot, busyTimes, participantIds[i]).value)
                in Conflicts(slot, busyTimes, participantIds)
  {
    forall i | 0 <= i < |participantIds| && ParticipantConflict(slot, busyTimes, participantIds[i]).Some?
      ensures Conflict(participantIds[i], ParticipantConflict(slot, busyTimes, participantIds[i]).value)
                in Conflicts(slot, busyTimes, participantIds)
    {
      ConflictAt(slot, busyTimes, participantIds, i);
    }
  }

  /** The conflicts split around participant position `i`. */
  lemma ConflictAt(slot: Slot, busyTimes: seq<BusyTime>, ps: seq<UserId>, i: nat)
    requires i < |ps|
    ensures Conflicts(slot, busyTimes, ps)
            == Conflicts(slot, busyTimes, ps[..i]) + Conflicts(slot, busyTimes, [ps[i]]) + Conflicts(slot, busyTimes, ps[i + 1..])
  {
    assert ps[..i] + ps[i..] == ps;
    assert [ps[i]] + ps[i + 1..] == ps[i..];
    ConflictsAppend(slot, busyTimes, ps[..i], ps[i..]);
    ConflictsAppend(slot, busyTimes, [ps[i]], ps[i + 1..]);
    ConcatAssoc3(Conflicts(slot, busyTimes, ps[..i]), Conflicts(slot, busyTimes, [ps[i]]), Conflicts(slot, busyTimes, ps[i + 1..]));
  }


  /** Everybody is counted available exactly when no participant has an
      overlapping busy interval. */
  lemma {:induction false} AvailableCountAllFree(slot: Slot, busyTimes: seq<BusyTime>, participantIds: seq<UserId>)
    ensures AvailableCount(slot, busyTimes, participantIds) == |participantIds|
        <==> forall p :: p in participantIds ==> ParticipantConflict(slot, busyTimes, p).None?
  {
    if participantIds != [] {
      var n := |participantIds| - 1;
      var init := participantIds[..n];
      AvailableCountAllFree(slot, busyTimes, init);
      assert participantIds == init + [participantIds[n]];
      assert forall p :: p in participantIds <==> p in init || p == participantIds[n];
    }
  }

  /** Every participant is either available or has exactly one conflict entry. */
  lemma {:induction false} ConflictAccounting(slot: Slot, busyTimes: seq<BusyTime>, participantIds: seq<UserId>)
    ensures AvailableCount(slot, busyTimes, participantIds) + |Conflicts(slot, busyTimes, participantIds)| == |participantIds|
  {
    if participantIds != [] {
      ConflictAccounting(slot, busyTimes, participantIds[..|participantIds| - 1]);
    }
  }

  /** Nobody is available exactly when every participant has a conflict entry;
      everybody is available exactly when the conflicts list is empty. */
  lemma AvailabilityExtremes(slot: Slot, busyTimes: seq<BusyTime>, participantIds: seq<UserId>)
    ensures AvailableCount(slot, busyTimes, participantIds) == |participantIds|
        <==> Conflicts(slot, busyTimes, participantIds) == []
    ensures AvailableCount(slot, busyTimes, participantIds) == 0
        <==> |Conflicts(slot, busyTimes, participantIds)| == |participantIds|
    ensures AvailableCount(slot, busyTimes, participantIds) == 0
        <==> forall i :: 0 <= i < |participantIds| ==> ParticipantConflict(slot, busyTimes, participantIds[i]).Some?
  {
    ConflictAccounting(slot, busyTimes, participantIds);
    NobodyFree(slot, busyTimes, participantIds);
  }

  lemma NobodyFree(slot: Slot, busyTimes: seq<BusyTime>, participantIds: seq<UserId>)
    ensures AvailableCount(slot, busyTimes, participantIds) == 0
        <==> forall i :: 0 <= i < |participantIds| ==> ParticipantConflict(slot, busyTimes, participantIds[i]).Some?
  {
    var flags := FreeFlags(slot, busyTimes, participantIds);
    AvailableCountIsFreeFlags(slot, busyTimes, participantIds);
    NoTrueFlags(flags);
    assert forall i :: 0 <= i < |participantIds| ==>
             flags[i] == ParticipantConflict(slot, busyTimes, participantIds[i]).None?;
  }

  lemma NoTrueFlags(flags: seq<bool>)
    ensures multiset(flags)[true] == 0 <==> forall i :: 0 <= i < |flags| ==> !flags[i]
  {
    if multiset(flags)[true] != 0 {
      assert true in flags;
    }
  }


  /** A participant absent from the busy list is always available, and so is
      everybody when nobody has a busy interval. */
  lemma {:induction false} NoBusyTimesAllAvailable(slot: Slot, participantIds: seq<UserId>)
    ensures AvailableCount(slot, [], participantIds) == |participantIds|
    ensures Conflicts(slot, [], participantIds) == []
  {
    if participantIds != [] {
      NoBusyTimesAllAvailable(slot, participantIds[..|participantIds| - 1]);
    }
  }

  // ---------------------------------------------------------------------------
  // Scoring
  // ---------------------------------------------------------------------------

  /** Availability term: 60 points times the share of available participants;
      the full 60 when there are no participants. */
  function AvailabilityPoints(available: int, total: int): (r: real)
    ensures 0 <= available <= total ==> 0.0 <= r <= 60.0
    ensures available == total ==> r == 60.0
    ensures 0 < total ==> (r == 0.0 <==> available == 0)
  {
    if total > 0 then (available as real / total as real) * 60.0 else 60.0
  }

  /** Time-of-day term from the slot's local start hour. */
  function TimeOfDayPoints(hour: int): (r: int)
    ensures r == 5 || r == 10 || r == 15
    ensures r == 15 <==> 9 <= hour < 12
    ensures r == 10 <==> 13 <= hour < 17
  {
    if 9 <= hour < 12 then 15 else if 13 <= hour < 17 then 10 else 5
  }

  /** Conflict-density term. */
  function ConflictPoints(conflictCount: int): (r: int)
    ensures 0 <= conflictCount ==> r == Max(0, 15 - 5 * conflictCount)
  {
    if conflictCount == 0 then 15 else if conflictCount == 1 then 10 else if conflictCount == 2 then 5 else 0
  }

  /** Priority term; `None` stands for a priority that is not a number (or NaN). */
  function PriorityPoints(priority: Option<real>): (r: real)
    ensures r == 0.0 <==> priority.None? || priority.value == 1.0
    ensures priority.Some? && priority.value >= 1.0 ==> r >= 0.0
  {
    match priority
    case Some(p) => (p - 1.0) * 2.5
    case None => 0.0
  }

  /** `Math.round`: the nearest integer, halves rounded up. */
  function Round(x: real): (n: int)
    ensures n as real - 0.5 <= x < n as real + 0.5
  {
    (x + 0.5).Floor
  }

  /** `Math.min(100, Math.max(0, n))`. */
  function Clamp(n: int): (r: int)
    ensures 0 <= r <= 100
    ensures 0 <= n <= 100 ==> r == n
    ensures n < 0 ==> r == 0
    ensures n > 100 ==> r == 100
  {
    Min(100, Max(0, n))
  }

  /** The sum of the four weighted terms, before rounding. */
  function RawScore(available: int, total: int, hour: int, conflictCount: int, priority: Option<real>): (r: real)
    ensures 0 <= available <= total && 0 <= conflictCount ==>
              5.0 + PriorityPoints(priority) <= r <= 90.0 + PriorityPoints(priority)
  {
    AvailabilityPoints(available, total) + TimeOfDayPoints(hour) as real
      + ConflictPoints(conflictCount) as real + PriorityPoints(priority)
  }

  /** The slot score: the rounded sum, clamped to [0, 100]. */
  function Score(available: int, total: int, hour: int, conflictCount: int, priority: Option<real>): (s: int)
    ensures 0 <= s <= 100
    ensures var x := RawScore(available, total, hour, conflictCount, priority);
            && (-0.5 <= x < 100.5 ==> s as real - 0.5 <= x < s as real + 0.5)
            && (x < -0.5 ==> s == 0)
            && (x >= 100.5 ==> s == 100)
  {
    Clamp(Round(RawScore(available, total, hour, conflictCount, priority)))
  }

  /** Raising the priority, all else fixed, never lowers the score. */
  lemma ScoreMonotoneInPriority(available: int, total: int, hour: int, conflictCount: int, p: real, q: real)
    requires p <= q
    ensures Score(available, total, hour, conflictCount, Some(p)) <= Score(available, total, hour, conflictCount, Some(q))
  {
    var x := RawScore(available, total, hour, conflictCount, Some(p));
    var y := RawScore(available, total, hour, conflictCount, Some(q));
    assert x <= y;
    assert Round(x) <= Round(y);
  }

  /** With every participant free and no priority given, the score is 75 plus the
      time-of-day term. */
  lemma ScoreAllAvailableNoPriority(total: nat, hour: int)
    ensures Score(total, total, hour, 0, None) == 75 + TimeOfDayPoints(hour)
  {
    if total > 0 {
      assert (total as real / total as real) == 1.0;
    }
  }

  /** The description shown with a suggestion. */
  function Describe(available: int, total: int): (d: Description)
    ensures d == AllAvailable <==> available == total
    ensures d == NoneAvailable <==> available == 0 && total != 0
    ensures d.NeedRescheduling? ==> d.count == total - available && available != 0 && available != total
  {
    if available == total then AllAvailable
    else if available == 0 then NoneAvailable
    else NeedRescheduling(total - available)
  }

  /** The suggestion produced for one slot. */
  function Evaluate(slot: Slot, busyTimes: seq<BusyTime>, participantIds: seq<UserId>, priority: Option<real>, hour: int): (s: Suggestion)
    ensures s.start == slot.start && s.end == slot.end && 0 <= s.score <= 100
    ensures |s.conflicts| + AvailableCount(slot, busyTimes, participantIds) == |participantIds|
    ensures s.description == AllAvailable <==> s.conflicts == []
  {
    var conflicts := Conflicts(slot, busyTimes, participantIds);
    var available := AvailableCount(slot, busyTimes, participantIds);
    ConflictAccounting(slot, busyTimes, participantIds);
    Suggestion(slot.start, slot.end, Score(available, |participantIds|, hour, |conflicts|, priority),
               Describe(available, |participantIds|), conflicts)
  }

  /** Adding one participant extends the conflicts list and the available count by that participant's outcome. */
  lemma ParticipantStep(slot: Slot, busyTimes: seq<BusyTime>, participantIds: seq<UserId>, i: nat)
    requires i < |participantIds|
    ensures var r := FirstOverlap(slot, BusyOf(busyTimes, participantIds[i]));
      && Conflicts(slot, busyTimes, participantIds[..i + 1])
         == Conflicts(slot, busyTimes, participantIds[..i]) + (if r.None? then [] else [Conflict(participantIds[i], r.value)])
      && AvailableCount(slot, busyTimes, participantIds[..i + 1])
         == AvailableCount(slot, busyTimes, participantIds[..i]) + (if r.None? then 1 else 0)
  {
    assert participantIds[..i + 1][..i] == participantIds[..i];
  }

  /** The inner loop of `_scoreSlots` for one participant: walk their busy
      intervals in order and stop (`break`) at the first overlapping one. */
  method FindConflict(slot: Slot, mine: seq<BusyTime>) returns (isAvailable: bool, found: BusyTime)
    ensures isAvailable <==> forall b :: b in mine ==> !Overlaps(slot, b)
    ensures !isAvailable ==> FirstOverlap(slot, mine) == Some(found)
  {
    isAvailable := true;
    found := BusyTime([], 0, 0);
    var j := 0;
    while j < |mine|
      invariant 0 <= j <= |mine|
      invariant forall k :: 0 <= k < j ==> !Overlaps(slot, mine[k])
      invariant FirstOverlap(slot, mine) == FirstOverlap(slot, mine[j..])
    {
      if Overlaps(slot, mine[j]) {
        isAvailable := false;
        found := mine[j];
        assert FirstOverlap(slot, mine[j..]) == Some(mine[j]);
        break;
      }
      assert mine[j..][1..] == mine[j + 1..];
      j := j + 1;
    }
  }

  /** The participant loop of `_scoreSlots`: one conflict entry for each
      participant that has an overlapping busy interval. */
  method CheckParticipants(slot: Slot, busyTimes: seq<BusyTime>, participantIds: seq<UserId>)
    returns (availableParticipants: nat, conflictingEventsCount: nat, conflicts: seq<Conflict>)
    ensures conflicts == Conflicts(slot, busyTimes, participantIds)
    ensures availableParticipants == AvailableCount(slot, busyTimes, participantIds)
    ensures conflictingEventsCount == |conflicts| == |participantIds| - availableParticipants
  {
    availableParticipants := 0;
    conflictingEventsCount := 0;
    conflicts := [];
    for i := 0 to |participantIds|
      invariant conflicts == Conflicts(slot, busyTimes, participantIds[..i])
      invariant availableParticipants == AvailableCount(slot, busyTimes, participantIds[..i])
      invariant conflictingEventsCount == |conflicts|
    {
      var participantId := participantIds[i];
      var isAvailable, busy := FindConflict(slot, BusyOf(busyTimes, participantId));
      ParticipantStep(slot, busyTimes, participantIds, i);
      if isAvailable {
        availableParticipants := availableParticipants + 1;
      } else {
        conflictingEventsCount := conflictingEventsCount + 1;
        conflicts := conflicts + [Conflict(participantId, busy)];
      }
    }
    assert participantIds[..|participantIds|] == participantIds;
    ConflictAccounting(slot, busyTimes, participantIds);
  }

  /** One iteration of `_scoreSlots`' map: check the participants, then add up
      the four terms, round, clamp and describe. */
  method ScoreSlot(slot: Slot, busyTimes: seq<BusyTime>, participantIds: seq<UserId>, priority: Option<real>, hour: int)
    returns (s: Suggestion)
    ensures s == Evaluate(slot, busyTimes, participantIds, priority, hour)
  {
    var totalParticipants := |participantIds|;
    var score: real := 0.0;
    var availableParticipants, conflictingEventsCount, conflicts := CheckParticipants(slot, busyTimes, participantIds);

    if totalParticipants > 0 {
      score := score + (availableParticipants as real / totalParticipants as real) * 60.0;
    } else {
      score := score + 60.0;
    }
    assert score == AvailabilityPoints(availableParticipants, totalParticipants);

    if 9 <= hour < 12 {
      score := score + 15.0;
    } else if 13 <= hour < 17 {
      score := score + 10.0;
    } else {
      score := score + 5.0;
    }
    assert score == AvailabilityPoints(availableParticipants, totalParticipants) + TimeOfDayPoints(hour) as real;

    if conflictingEventsCount == 0 {
      score := score + 15.0;
    } else if conflictingEventsCount == 1 {
      score := score + 10.0;
    } else if conflictingEventsCount == 2 {
      score := score + 5.0;
    }
    assert score == AvailabilityPoints(availableParticipants, totalParticipants) + TimeOfDayPoints(hour) as real
                    + ConflictPoints(conflictingEventsCount) as real;

    if priority.Some? {
      score := score + (priority.value - 1.0) * 2.5;
    }

    assert score == RawScore(availableParticipants, totalParticipants, hour, conflictingEventsCount, priority);
    var finalScore := Min(100, Max(0, Round(score)));

    var description;
    if availableParticipants == totalParticipants {
      description := AllAvailable;
    } else if availableParticipants == 0 {
      description := NoneAvailable;
    } else {
      description := NeedRescheduling(totalParticipants - availableParticipants);
    }

    assert finalScore == Score(availableParticipants, totalParticipants, hour, conflictingEventsCount, priority);
    assert description == Describe(availableParticipants, totalParticipants);
    s := Suggestion(slot.start, slot.end, finalScore, description, conflicts);
  }

  /** `_scoreSlots` (`slots.map(...)`): every slot scored, in generation order.
      The local start hour of a timestamp is `hourOf`. */
  function ScoreAll(slots: seq<Slot>, busyTimes: seq<BusyTime>, participantIds: seq<UserId>,
                    priority: Option<real>, hourOf: int -> int): (scored: seq<Suggestion>)
    ensures |scored| == |slots|
    ensures forall i :: 0 <= i < |slots| ==>
              scored[i].start == slots[i].start && scored[i].end == slots[i].end && 0 <= scored[i].score <= 100
  {
    var scored := seq(|slots|, i requires 0 <= i < |slots| =>
                        Evaluate(slots[i], busyTimes, participantIds, priority, hourOf(slots[i].start)));
    assert forall i :: 0 <= i < |slots| ==>
             scored[i] == Evaluate(slots[i], busyTimes, participantIds, priority, hourOf(slots[i].start));
    scored
  }

  /** The scoring loop: each slot scored in turn, appended in order. */
  method ScoreSlots(slots: seq<Slot>, busyTimes: seq<BusyTime>, participantIds: seq<UserId>,
                    priority: Option<real>, hourOf: int -> int) returns (scored: seq<Suggestion>)
    ensures scored == ScoreAll(slots, busyTimes, participantIds, priority, hourOf)
  {
    ghost var all := ScoreAll(slots, busyTimes, participantIds, priority, hourOf);
    scored := [];
    for i := 0 to |slots|
      invariant scored == all[..i]
    {
      var s := ScoreSlot(slots[i], busyTimes, participantIds, priority, hourOf(slots[i].start));
      assert all[i] == s;
      scored := scored + [s];
      assert all[..i + 1] == all[..i] + [all[i]];
    }
    assert all[..|slots|] == all;
  }

  // ---------------------------------------------------------------------------
  // Ranking
  // ---------------------------------------------------------------------------

  /** Non-increasing by score. */
  predicate SortedByScore(s: seq<Suggestion>)
  {
    forall i, j :: 0 <= i < j < |s| ==> s[i].score >= s[j].score
  }

  /** The suggestions that have score `v`, in order. */
  function WithScore(s: seq<Suggestion>, v: int): seq<Suggestion>
  {
    if s == [] then []
    else (if s[0].score == v then [s[0]] else []) + WithScore(s[1..], v)
  }

  /** Places `x` behind every leading element whose score is at least its own. */
  function InsertByScore(x: Suggestion, s: seq<Suggestion>): (r: seq<Suggestion>)
    ensures multiset(r) == multiset(s) + multiset{x}
  {
    if s == [] then [x]
    else if s[0].score < x.score then [x] + s
    else
      assert s == [s[0]] + s[1..];
      [s[0]] + InsertByScore(x, s[1..])
  }

  /** The order a stable descending sort on score produces (`Array.prototype.sort`
      with comparator `b.score - a.score`, which is stable). */
  function SortByScore(s: seq<Suggestion>): (r: seq<Suggestion>)
    ensures multiset(r) == multiset(s)
  {
    if s == [] then []
    else
      assert s == s[..|s| - 1] + [s[|s| - 1]];
      InsertByScore(s[|s| - 1], SortByScore(s[..|s| - 1]))
  }

  lemma {:induction false} InsertByScoreSorted(x: Suggestion, s: seq<Suggestion>)
    requires SortedByScore(s)
    ensures SortedByScore(InsertByScore(x, s))
  {
    if s != [] && s[0].score >= x.score {
      InsertByScoreSorted(x, s[1..]);
      var r := InsertByScore(x, s);
      var t := InsertByScore(x, s[1..]);
      assert r == [s[0]] + t;
      forall k | 0 <= k < |t| ensures t[k].score <= s[0].score {
        assert t[k] in multiset(t);
        assert t[k] in multiset(s[1..]) + multiset{x};
        if t[k] != x {
          assert t[k] in s[1..];
        }
      }
    }
  }

  /** The result of the sort is non-increasing by score. */
  lemma {:induction false} SortByScoreSorted(s: seq<Suggestion>)
    ensures SortedByScore(SortByScore(s))
  {
    if s != [] {
      SortByScoreSorted(s[..|s| - 1]);
      InsertByScoreSorted(s[|s| - 1], SortByScore(s[..|s| - 1]));
    }
  }

  lemma {:induction false} WithScoreAppend(a: seq<Suggestion>, b: seq<Suggestion>, v: int)
    ensures WithScore(a + b, v) == WithScore(a, v) + WithScore(b, v)
  {
    if a != [] {
      assert (a + b)[1..] == a[1..] + b;
      WithScoreAppend(a[1..], b, v);
    } else {
      assert a + b == b;
    }
  }

  /** `WithScore` of a sequence with a known head. */
  lemma WithScoreCons(y: Suggestion, t: seq<Suggestion>, v: int)
    ensures WithScore([y] + t, v) == (if y.score == v then [y] else []) + WithScore(t, v)
  {
    assert ([y] + t)[1..] == t;
  }

  /** Inserting in front of a sorted sequence whose head scores below `x`. */
  lemma InsertInFrontKeepsTies(x: Suggestion, s: seq<Suggestion>, v: int)
    requires SortedByScore(s) && s != [] && s[0].score < x.score
    ensures WithScore([x] + s, v) == WithScore(s, v) + WithScore([x], v)
  {
    WithScoreCons(x, s, v);
    assert WithScore([x], v) == (if x.score == v then [x] else []) by {
      WithScoreCons(x, [], v);
      assert [x] + [] == [x];
    }
    if x.score == v {
      NoneWithScore(s, v);
    }
  }

  /** Inserting into a sorted sequence puts `x` behind every element of equal score. */
  lemma {:induction false} InsertByScoreKeepsTies(x: Suggestion, s: seq<Suggestion>, v: int)
    requires SortedByScore(s)
    ensures WithScore(InsertByScore(x, s), v) == WithScore(s, v) + WithScore([x], v)
  {
    if s == [] {
      assert InsertByScore(x, s) == [x];
    } else if s[0].score < x.score {
      assert InsertByScore(x, s) == [x] + s;
      InsertInFrontKeepsTies(x, s, v);
    } else {
      var t := s[1..];
      var h := if s[0].score == v then [s[0]] else [];
      assert SortedByScore(t);
      InsertByScoreKeepsTies(x, t, v);
      assert InsertByScore(x, s) == [s[0]] + InsertByScore(x, t);
      WithScoreCons(s[0], InsertByScore(x, t), v);
      assert WithScore(s, v) == h + WithScore(t, v);
      ConcatAssoc3(h, WithScore(t, v), WithScore([x], v));
    }
  }

  lemma ConcatAssoc3<T>(a: seq<T>, b: seq<T>, c: seq<T>)
    ensures a + (b + c) == (a + b) + c
  {
  }

  lemma {:induction false} NoneWithScore(s: seq<Suggestion>, v: int)
    requires SortedByScore(s) && s != [] && s[0].score < v
    ensures WithScore(s, v) == []
  {
    if |s| > 1 {
      NoneWithScore(s[1..], v);
    }
  }

  /** Stability: the suggestions of any one score appear in the sorted result in
      the order they had before sorting. */
  lemma {:induction false} SortByScoreStable(s: seq<Suggestion>, v: int)
    ensures WithScore(SortByScore(s), v) == WithScore(s, v)
  {
    if s != [] {
      var n := |s| - 1;
      SortByScoreStable(s[..n], v);
      SortByScoreSorted(s[..n]);
      InsertByScoreKeepsTies(s[n], SortByScore(s[..n]), v);
      WithScoreSnoc(s, v);
    }
  }

  lemma WithScoreSnoc(s: seq<Suggestion>, v: int)
    requires s != []
    ensures WithScore(s, v) == WithScore(s[..|s| - 1], v) + WithScore([s[|s| - 1]], v)
  {
    WithScoreAppend(s[..|s| - 1], [s[|s| - 1]], v);
    assert s[..|s| - 1] + [s[|s| - 1]] == s;
  }

  lemma ConcatAssoc<T>(a: seq<T>, b: seq<T>, c: seq<T>, d: seq<T>)
    ensures a + (b + c + d) == (a + b) + c + d
  {
  }

  /** `InsertByScore` puts `x` at the first position `j` whose element scores below it. */
  lemma {:induction false} InsertByScoreAt(x: Suggestion, s: seq<Suggestion>, j: nat)
    requires j <= |s|
    requires forall k :: 0 <= k < j ==> s[k].score >= x.score
    requires j < |s| ==> s[j].score < x.score
    ensures InsertByScore(x, s) == s[..j] + [x] + s[j..]
  {
    if j == 0 {
      assert InsertByScore(x, s) == [x] + s;
      assert s[..0] + [x] + s[0..] == [x] + s;
    } else {
      var t := s[1..];
      forall k | 0 <= k < j - 1
        ensures t[k].score >= x.score
      {
        assert t[k] == s[k + 1];
      }
      assert j - 1 < |t| ==> t[j - 1] == s[j];
      InsertByScoreAt(x, t, j - 1);
      assert s[0].score >= x.score;
      assert InsertByScore(x, s) == [s[0]] + InsertByScore(x, t);
      InsertSplitAt(s, t, j, x);
    }
  }

  lemma InsertSplitAt(s: seq<Suggestion>, t: seq<Suggestion>, j: nat, x: Suggestion)
    requires 0 < j <= |s| && t == s[1..]
    ensures [s[0]] + (t[..j - 1] + [x] + t[j - 1..]) == s[..j] + [x] + s[j..]
  {
    assert s[..j] == [s[0]] + t[..j - 1];
    assert s[j..] == t[j - 1..];
    ConcatAssoc([s[0]], t[..j - 1], [x], t[j - 1..]);
  }

  lemma SortedPrefixAtLeast(s: seq<Suggestion>, j: nat, v: int)
    requires SortedByScore(s) && j <= |s|
    requires j > 0 ==> s[j - 1].score >= v
    ensures forall k :: 0 <= k < j ==> s[k].score >= v
  {
  }

  /** A sequence that agrees with `sorted` below `j`, holds `x` at `j` and
      `sorted` shifted by one above `j` is `x` inserted into `sorted`. */
  lemma GapFilledIsInsert(cur: seq<Suggestion>, sorted: seq<Suggestion>, j: nat, x: Suggestion)
    requires SortedByScore(sorted) && j <= |sorted| && |cur| == |sorted| + 1
    requires forall k :: 0 <= k < j ==> cur[k] == sorted[k]
    requires cur[j] == x
    requires forall k :: j < k < |cur| ==> cur[k] == sorted[k - 1]
    requires j > 0 ==> sorted[j - 1].score >= x.score
    requires forall k :: j <= k < |sorted| ==> sorted[k].score < x.score
    ensures cur == InsertByScore(x, sorted)
  {
    SortedPrefixAtLeast(sorted, j, x.score);
    InsertByScoreAt(x, sorted, j);
    var ins := sorted[..j] + [x] + sorted[j..];
    assert |ins| == |cur|;
    forall k | 0 <= k < |cur|
      ensures cur[k] == ins[k]
    {
      if k < j {
        assert ins[k] == sorted[k];
      } else if k == j {
        assert ins[k] == x;
      } else {
        assert ins[k] == sorted[k - 1];
      }
    }
  }

  /** After the shifting loop has turned `before` into `mid`, dropping `x` into
      the gap `j` leaves `x` inserted into the sorted prefix `before[..i]`. */
  lemma ShiftedIsInsert(before: seq<Suggestion>, mid: seq<Suggestion>, i: nat, j: nat, x: Suggestion)
    requires i < |before| == |mid| && j <= i && SortedByScore(before[..i])
    requires forall k :: 0 <= k < j ==> mid[k] == before[k]
    requires forall k :: j < k <= i ==> mid[k] == before[k - 1]
    requires j > 0 ==> before[j - 1].score >= x.score
    requires forall k :: j <= k < i ==> before[k].score < x.score
    ensures mid[j := x][..i + 1] == InsertByScore(x, before[..i])
  {
    var sorted := before[..i];
    var cur := mid[j := x][..i + 1];
    forall k | 0 <= k < j ensures cur[k] == sorted[k] {
      assert cur[k] == mid[k];
    }
    forall k | j < k < |cur| ensures cur[k] == sorted[k - 1] {
      assert cur[k] == mid[k];
    }
    forall k | j <= k < |sorted| ensures sorted[k].score < x.score {
      assert sorted[k] == before[k];
    }
    assert j > 0 ==> sorted[j - 1] == before[j - 1];
    GapFilledIsInsert(cur, sorted, j, x);
  }

  /** One insertion step: shift the higher-indexed elements of the sorted prefix
      `a[..i]` that score below `a[i]` one place right and drop `a[i]` into the gap. */
  method InsertStep(a: array<Suggestion>, i: nat)
    requires i < a.Length
    requires SortedByScore(a[..i])
    modifies a
    ensures a[..i + 1] == InsertByScore(old(a[i]), old(a[..i]))
    ensures forall k :: i < k < a.Length ==> a[k] == old(a[k])
  {
    ghost var before := a[..];
    var key := a[i];
    var j := ShiftLower(a, i, key.score);
    ghost var mid := a[..];
    a[j] := key;
    assert a[..] == mid[j := key];
    ShiftedIsInsert(before, mid, i, j, key);
    assert a[..i + 1] == mid[j := key][..i + 1];
    assert old(a[..i]) == before[..i];
  }

  /** The inner loop of the insertion: moves the elements of the sorted prefix
      `a[..i]` that score below `v` one place right, and returns the gap left. */
  method ShiftLower(a: array<Suggestion>, i: nat, v: int) returns (j: nat)
    requires i < a.Length
    requires SortedByScore(a[..i])
    modifies a
    ensures j <= i
    ensures forall k :: 0 <= k < j ==> a[k] == old(a[k])
    ensures forall k :: j < k <= i ==> a[k] == old(a[k - 1])
    ensures j > 0 ==> old(a[j - 1]).score >= v
    ensures forall k :: j <= k < i ==> old(a[k]).score < v
    ensures forall k :: i < k < a.Length ==> a[k] == old(a[k])
  {
    ghost var sorted := a[..i];
    j := i;
    while j > 0 && a[j - 1].score < v
      invariant 0 <= j <= i
      invariant forall k :: 0 <= k < j ==> a[k] == sorted[k]
      invariant forall k :: j < k <= i ==> a[k] == sorted[k - 1]
      invariant forall k :: j <= k < i ==> sorted[k].score < v
      invariant forall k :: i < k < a.Length ==> a[k] == old(a[k])
    {
      a[j] := a[j - 1];
      j := j - 1;
    }
  }

  /** The in-place stable sort of `calculateOptimalTime` (insertion sort). */
  method SortInPlace(a: array<Suggestion>)
    modifies a
    ensures a[..] == SortByScore(old(a[..]))
  {
    ghost var input := a[..];
    for i := 0 to a.Length
      invariant a[..i] == SortByScore(input[..i])
      invariant forall k :: i <= k < a.Length ==> a[k] == input[k]
    {
      SortByScoreSorted(input[..i]);
      SortByScorePrefixStep(input, i);
      InsertStep(a, i);
    }
    assert input[..a.Length] == input;
  }

  /** Sorting one more element of the input inserts it into the sorted prefix. */
  lemma SortByScorePrefixStep(s: seq<Suggestion>, i: nat)
    requires i < |s|
    ensures SortByScore(s[..i + 1]) == InsertByScore(s[i], SortByScore(s[..i]))
  {
    assert s[..i + 1][..i] == s[..i];
  }

  /** `slice(0, n)`. */
  function Take(s: seq<Suggestion>, n: nat): (r: seq<Suggestion>)
    ensures |r| == Min(n, |s|) && r == s[..|r|]
  {
    if |s| <= n then s else s[..n]
  }

  /** `calculateOptimalTime`: no slots gives no suggestions; otherwise the scored
      slots, stably sorted by descending score, cut to the first five. */
  function OptimalTimes(busyTimes: seq<BusyTime>, duration: int, ranges: seq<TimeRange>,
                        participantIds: seq<UserId>, priority: Option<real>, hourOf: int -> int): (r: seq<Suggestion>)
    ensures |r| <= MaxSuggestions
    ensures r == [] <==> PossibleSlots(ranges, duration) == []
  {
    var slots := PossibleSlots(ranges, duration);
    if |slots| == 0 then []
    else Take(SortByScore(ScoreAll(slots, busyTimes, participantIds, priority, hourOf)), MaxSuggestions)
  }

  /** The first n elements of a stably sorted sequence keep, for each score, a
      prefix of that score's elements. */
  lemma {:induction false} WithScoreTake(s: seq<Suggestion>, n: nat, v: int)
    requires n <= |s|
    ensures WithScore(s[..n], v) <= WithScore(s, v)
  {
    WithScoreAppend(s[..n], s[n..], v);
    assert s[..n] + s[n..] == s;
  }

  /** Cutting a sorted sequence leaves nothing outside the cut that scores above
      something inside it. */
  lemma TakeOfSortedIsTop(sorted: seq<Suggestion>, n: nat)
    requires SortedByScore(sorted) && n <= |sorted|
    ensures forall x: Suggestion, y: Suggestion ::
              x in multiset(sorted) - multiset(sorted[..n]) && y in sorted[..n] ==> x.score <= y.score
  {
    var top, rest := sorted[..n], sorted[n..];
    assert sorted == top + rest;
    assert multiset(sorted) == multiset(top) + multiset(rest);
    forall x: Suggestion, y: Suggestion | x in multiset(sorted) - multiset(top) && y in top
      ensures x.score <= y.score
    {
      assert x in multiset(rest);
      var a :| 0 <= a < |rest| && rest[a] == x;
      var b :| 0 <= b < |top| && top[b] == y;
      assert sorted[n + a] == x && sorted[b] == y;
    }
  }

  /** Sorting stably by descending score and keeping the first five selects a top
      five of the scored suggestions, ties in their original order. */
  lemma {:induction false} TopSuggestions(scored: seq<Suggestion>)
    ensures var r := Take(SortByScore(scored), MaxSuggestions);
            && |r| == Min(MaxSuggestions, |scored|)
            && SortedByScore(r)
            && multiset(r) <= multiset(scored)
            && (forall x: Suggestion, y: Suggestion :: x in multiset(scored) - multiset(r) && y in r ==> x.score <= y.score)
            && (forall v :: WithScore(r, v) <= WithScore(scored, v))
  {
    var sorted := SortByScore(scored);
    var n := Min(MaxSuggestions, |sorted|);
    var r := Take(sorted, MaxSuggestions);
    assert |sorted| == |multiset(scored)| == |scored|;
    assert r == sorted[..n];
    SortByScoreSorted(scored);
    assert SortedByScore(r) by {
      forall i, j | 0 <= i < j < |r| ensures r[i].score >= r[j].score {
        assert r[i] == sorted[i] && r[j] == sorted[j];
      }
    }
    TakeOfSortedIsTop(sorted, n);
    PrefixSubMultiset(sorted, n);
    PrefixKeepsTies(scored, n);
  }

  lemma PrefixSubMultiset(s: seq<Suggestion>, n: nat)
    requires n <= |s|
    ensures multiset(s[..n]) <= multiset(s)
  {
    assert s == s[..n] + s[n..];
    assert multiset(s) == multiset(s[..n]) + multiset(s[n..]);
  }

  /** A prefix of the stable sort keeps, for each score, a prefix of the input's
      elements of that score. */
  lemma PrefixKeepsTies(scored: seq<Suggestion>, n: nat)
    requires n <= |SortByScore(scored)|
    ensures forall v :: WithScore(SortByScore(scored)[..n], v) <= WithScore(scored, v)
  {
    var sorted := SortByScore(scored);
    forall v ensures WithScore(sorted[..n], v) <= WithScore(scored, v) {
      WithScoreTake(sorted, n, v);
      SortByScoreStable(scored, v);
    }
  }

  /** What `calculateOptimalTime` promises: at most five suggestions (fewer only
      when fewer slots exist), highest score first, each one a scored candidate
      slot, no left-out candidate scoring above a chosen one, and equal scores in
      generation order. */
  lemma OptimalTimesRanking(busyTimes: seq<BusyTime>, duration: int, ranges: seq<TimeRange>,
                            participantIds: seq<UserId>, priority: Option<real>, hourOf: int -> int)
    ensures var scored := ScoreAll(PossibleSlots(ranges, duration), busyTimes, participantIds, priority, hourOf);
            var r := OptimalTimes(busyTimes, duration, ranges, participantIds, priority, hourOf);
            && |r| == Min(MaxSuggestions, |PossibleSlots(ranges, duration)|)
            && SortedByScore(r)
            && multiset(r) <= multiset(scored)
            && (forall x: Suggestion, y: Suggestion :: x in multiset(scored) - multiset(r) && y in r ==> x.score <= y.score)
            && (forall v :: WithScore(r, v) <= WithScore(scored, v))
  {
    var slots := PossibleSlots(ranges, duration);
    if |slots| != 0 {
      TopSuggestions(ScoreAll(slots, busyTimes, participantIds, priority, hourOf));
    }
  }

  /** `calculateOptimalTime`: generate, score, sort in place, keep the top five. */
  method CalculateOptimalTime(busyTimes: seq<BusyTime>, duration: int, ranges: seq<TimeRange>,
                              participantIds: seq<UserId>, priority: Option<real>, hourOf: int -> int)
    returns (suggestions: seq<Suggestion>)
    ensures suggestions == OptimalTimes(busyTimes, duration, ranges, participantIds, priority, hourOf)
    ensures |suggestions| == Min(MaxSuggestions, |PossibleSlots(ranges, duration)|)
    ensures SortedByScore(suggestions)
  {
    var possibleSlots := GeneratePossibleSlots(ranges, duration);
    if |possibleSlots| == 0 {
      return [];
    }
    var scoredSlots := ScoreSlots(possibleSlots, busyTimes, participantIds, priority, hourOf);
    var a := new Suggestion[|scoredSlots|](i requires 0 <= i < |scoredSlots| => scoredSlots[i]);
    assert a[..] == scoredSlots;
    SortInPlace(a);
    suggestions := Take(a[..], MaxSuggestions);
    OptimalTimesRanking(busyTimes, duration, ranges, participantIds, priority, hourOf);
  }
}
