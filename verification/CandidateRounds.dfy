/** `_summary_candidates`: a generator that takes one candidate of each profile per round, from pages of sixteen, until
    its budget is spent.  The schedule it follows is described by the numbers of candidates alone. */
module CandidateRounds {

  const PAGE_SIZE: nat := 16
  const MAX_CANDIDATES: nat := 256

  // ---- The schedule: rounds over the profiles that still have a candidate ----

  /** Picks (profile, rank) of round `k` among profiles `lo` to `hi - 1`. */
  function Round(lens: seq<nat>, k: nat, lo: nat, hi: nat): seq<(nat, nat)>
    requires lo <= hi <= |lens|
    decreases hi - lo
  {
    if lo == hi then []
    else (if lens[lo] > k then [(lo, k)] else []) + Round(lens, k, lo + 1, hi)
  }

  /** The first `k` rounds. */
  function Rounds(lens: seq<nat>, k: nat): seq<(nat, nat)> {
    if k == 0 then [] else Rounds(lens, k - 1) + Round(lens, k - 1, 0, |lens|)
  }

  function Longest(lens: seq<nat>): nat {
    if lens == [] then 0
    else if lens[0] >= Longest(lens[1..]) then lens[0] else Longest(lens[1..])
  }

  /** All candidates in the order of the rounds. */
  function Schedule(lens: seq<nat>): seq<(nat, nat)> {
    Rounds(lens, Longest(lens))
  }

  function Total(lens: seq<nat>): nat {
    if lens == [] then 0 else lens[0] + Total(lens[1..])
  }

  function Lens<T>(groups: seq<seq<T>>): seq<nat> {
    seq(|groups|, i requires 0 <= i < |groups| => |groups[i]|)
  }

  /** `a` is served before `b`: an earlier round, or an earlier profile in the same round. */
  predicate Served(a: (nat, nat), b: (nat, nat)) {
    a.1 < b.1 || (a.1 == b.1 && a.0 < b.0)
  }

  ghost predicate InOrder(picks: seq<(nat, nat)>) {
    forall p, q :: 0 <= p < q < |picks| ==> Served(picks[p], picks[q])
  }

  lemma JoinedInOrder(a: seq<(nat, nat)>, b: seq<(nat, nat)>)
    requires InOrder(a) && InOrder(b) && forall x, y :: x in a && y in b ==> Served(x, y)
    ensures InOrder(a + b)
  {
    forall p, q | 0 <= p < q < |a + b|
      ensures Served((a + b)[p], (a + b)[q])
    {
      if p < |a| <= q {
        assert a[p] in a && b[q - |a|] in b;
      }
    }
  }

  lemma OneMorePick(lens: seq<nat>, k: nat, lo: nat, hi: nat, tail: seq<(nat, nat)>)
    requires lo < hi <= |lens| && InOrder(tail)
    requires forall x :: x in tail <==> lo < x.0 < hi && x.1 == k && lens[x.0] > k
    ensures var picks := (if lens[lo] > k then [(lo, k)] else []) + tail;
            InOrder(picks) && forall x :: x in picks <==> lo <= x.0 < hi && x.1 == k && lens[x.0] > k
  {
    if lens[lo] > k {
      JoinedInOrder([(lo, k)], tail);
      assert forall x :: x in [(lo, k)] + tail <==> x == (lo, k) || x in tail;
    } else {
      assert [] + tail == tail;
    }
  }

  lemma {:induction false} RoundContents(lens: seq<nat>, k: nat, lo: nat, hi: nat)
    requires lo <= hi <= |lens|
    ensures forall x :: x in Round(lens, k, lo, hi) <==> lo <= x.0 < hi && x.1 == k && lens[x.0] > k
    ensures InOrder(Round(lens, k, lo, hi))
    decreases hi - lo
  {
    if lo == hi {
    } else {
      RoundContents(lens, k, lo + 1, hi);
      OneMorePick(lens, k, lo, hi, Round(lens, k, lo + 1, hi));
    }
  }

  lemma {:induction false} RoundsContents(lens: seq<nat>, k: nat)
    ensures forall x :: x in Rounds(lens, k) <==> x.0 < |lens| && x.1 < k && lens[x.0] > x.1
    ensures InOrder(Rounds(lens, k))
  {
    if k == 0 {
    } else {
      RoundsContents(lens, k - 1);
      RoundContents(lens, k - 1, 0, |lens|);
      var before, last := Rounds(lens, k - 1), Round(lens, k - 1, 0, |lens|);
      JoinedInOrder(before, last);
      assert forall x :: x in before + last <==> x in before || x in last;
    }
  }

  lemma {:induction false} LongestBounds(lens: seq<nat>)
    ensures forall i :: 0 <= i < |lens| ==> lens[i] <= Longest(lens)
  {
    if lens == [] {
    } else {
      LongestBounds(lens[1..]);
      assert forall i :: 0 < i < |lens| ==> lens[i] == lens[1..][i - 1];
    }
  }

  /** The schedule serves every candidate once and is fair: every candidate of rank `k` comes before any of rank
      `k + 1`, and within a profile ranks ascend without a gap. */
  lemma ScheduleIsFairAndComplete(lens: seq<nat>)
    ensures forall x :: x in Schedule(lens) <==> x.0 < |lens| && x.1 < lens[x.0]
    ensures InOrder(Schedule(lens))
  {
    LongestBounds(lens);
    RoundsContents(lens, Longest(lens));
  }

  /** A prefix of the schedule that reaches rank `k` of some profile has served rank `k - 1` of everybody who has it. */
  lemma PrefixIsFair(lens: seq<nat>, m: nat, pick: (nat, nat), other: (nat, nat))
    requires m <= |Schedule(lens)| && pick in Schedule(lens)[..m]
    requires other.0 < |lens| && other.1 < lens[other.0] && other.1 < pick.1
    ensures other in Schedule(lens)[..m]
  {
    ScheduleIsFairAndComplete(lens);
    var s := Schedule(lens);
    var p :| 0 <= p < m && s[p] == pick;
    var q :| 0 <= q < |s| && s[q] == other;
    if q >= p {
      assert q == p || Served(s[p], s[q]);
    }
  }

  function Min(a: nat, b: nat): nat {
    if a <= b then a else b
  }

  /** How many candidates the first `k` rounds serve. */
  function Capped(lens: seq<nat>, k: nat): nat {
    if lens == [] then 0 else Min(lens[0], k) + Capped(lens[1..], k)
  }

  lemma {:induction false} RoundLength(lens: seq<nat>, k: nat, lo: nat)
    requires lo <= |lens|
    ensures |Round(lens, k, lo, |lens|)| + Capped(lens[lo..], k) == Capped(lens[lo..], k + 1)
    decreases |lens| - lo
  {
    if lo >= |lens| {
    } else {
      assert lens[lo..][1..] == lens[lo + 1..];
      RoundLength(lens, k, lo + 1);
    }
  }

  lemma {:induction false} RoundsLength(lens: seq<nat>, k: nat)
    ensures |Rounds(lens, k)| == Capped(lens, k)
  {
    if k == 0 {
      NothingCapped(lens);
    } else {
      RoundsLength(lens, k - 1);
      WholeRoundLength(lens, k - 1);
    }
  }

  lemma WholeRoundLength(lens: seq<nat>, k: nat)
    ensures |Round(lens, k, 0, |lens|)| + Capped(lens, k) == Capped(lens, k + 1)
  {
    assert lens[0..] == lens;
    RoundLength(lens, k, 0);
  }

  lemma {:induction false} NothingCapped(lens: seq<nat>)
    ensures Capped(lens, 0) == 0
  {
    if lens == [] {
    } else {
      NothingCapped(lens[1..]);
    }
  }

  lemma {:induction false} CappedIsTotal(lens: seq<nat>, k: nat)
    requires forall i :: 0 <= i < |lens| ==> lens[i] <= k
    ensures Capped(lens, k) == Total(lens)
  {
    if lens == [] {
    } else {
      CappedIsTotal(lens[1..], k);
    }
  }

  lemma ScheduleLength(lens: seq<nat>)
    ensures |Schedule(lens)| == Total(lens)
  {
    LongestBounds(lens);
    RoundsLength(lens, Longest(lens));
    CappedIsTotal(lens, Longest(lens));
  }

  lemma {:induction false} NothingLeft(lens: seq<nat>, k: nat, lo: nat)
    requires lo <= |lens| && forall i :: 0 <= i < |lens| ==> lens[i] <= k
    ensures Round(lens, k, lo, |lens|) == []
    decreases |lens| - lo
  {
    if lo == |lens| {
    } else {
      NothingLeft(lens, k, lo + 1);
    }
  }

  lemma {:induction false} RoundsStop(lens: seq<nat>, top: nat, k: nat)
    requires k >= top && forall i :: 0 <= i < |lens| ==> lens[i] <= top
    ensures Rounds(lens, k) == Rounds(lens, top)
  {
    if k <= top {
    } else {
      RoundsStop(lens, top, k - 1);
      NothingLeft(lens, k - 1, 0);
    }
  }

  lemma MoreRoundsServeTheSame(lens: seq<nat>, k: nat)
    requires k >= Longest(lens)
    ensures Rounds(lens, k) == Schedule(lens)
  {
    LongestBounds(lens);
    RoundsStop(lens, Longest(lens), k);
  }

  lemma {:induction false} RoundsArePrefix(lens: seq<nat>, k: nat)
    requires k <= Longest(lens)
    ensures Rounds(lens, k) <= Schedule(lens)
    decreases Longest(lens) - k
  {
    if k >= Longest(lens) {
    } else {
      RoundsArePrefix(lens, k + 1);
      assert Rounds(lens, k) <= Rounds(lens, k + 1);
    }
  }

  lemma {:induction false} RoundSplit(lens: seq<nat>, k: nat, lo: nat, mid: nat, hi: nat)
    requires lo <= mid <= hi <= |lens|
    ensures Round(lens, k, lo, hi) == Round(lens, k, lo, mid) + Round(lens, k, mid, hi)
    decreases mid - lo
  {
    var last := Round(lens, k, mid, hi);
    if lo == mid {
      assert Round(lens, k, lo, mid) + last == last;
    } else {
      RoundSplit(lens, k, lo + 1, mid, hi);
      var head, middle := (if lens[lo] > k then [(lo, k)] else []), Round(lens, k, lo + 1, mid);
      assert head + (middle + last) == head + middle + last;
    }
  }

  /** The schedule up to profile `j` of round `k`. */
  function ServedUpTo(lens: seq<nat>, k: nat, j: nat): seq<(nat, nat)>
    requires j <= |lens|
  {
    Rounds(lens, k) + Round(lens, k, 0, j)
  }

  lemma ServedIsPrefix(lens: seq<nat>, k: nat, j: nat)
    requires j <= |lens|
    ensures ServedUpTo(lens, k, j) <= Schedule(lens)
  {
    RoundSplit(lens, k, 0, j, |lens|);
    assert ServedUpTo(lens, k, j) <= Rounds(lens, k + 1);
    if k + 1 <= Longest(lens) {
      RoundsArePrefix(lens, k + 1);
    } else {
      MoreRoundsServeTheSame(lens, k + 1);
    }
  }

  // ---- The queue of profiles ----

  /** Profiles still to be visited in round `k`; before the first round nobody knows which profiles are empty. */
  function Waiting(lens: seq<nat>, k: nat, lo: nat, hi: nat): seq<nat>
    requires lo <= hi <= |lens|
    decreases hi - lo
  {
    if lo == hi then []
    else (if k == 0 || lens[lo] > k then [lo] else []) + Waiting(lens, k, lo + 1, hi)
  }

  /** In round `k`, before profile `j`: the rest of the round, then those that come back. */
  function QueueIds(lens: seq<nat>, k: nat, j: nat): seq<nat>
    requires j <= |lens|
  {
    Waiting(lens, k, j, |lens|) + Waiting(lens, k + 1, 0, j)
  }

  lemma {:induction false} WaitingSplit(lens: seq<nat>, k: nat, lo: nat, mid: nat, hi: nat)
    requires lo <= mid <= hi <= |lens|
    ensures Waiting(lens, k, lo, hi) == Waiting(lens, k, lo, mid) + Waiting(lens, k, mid, hi)
    decreases mid - lo
  {
    var last := Waiting(lens, k, mid, hi);
    if lo == mid {
      assert Waiting(lens, k, lo, mid) + last == last;
    } else {
      WaitingSplit(lens, k, lo + 1, mid, hi);
      var head, middle := (if k == 0 || lens[lo] > k then [lo] else []), Waiting(lens, k, lo + 1, mid);
      assert head + (middle + last) == head + middle + last;
    }
  }

  lemma {:induction false} NobodyWaits(lens: seq<nat>, k: nat, lo: nat, hi: nat)
    requires lo <= hi <= |lens| && Waiting(lens, k, lo, hi) == []
    ensures Round(lens, k, lo, hi) == [] && Waiting(lens, k + 1, lo, hi) == []
    decreases hi - lo
  {
    if lo == hi {
    } else {
      NobodyWaits(lens, k, lo + 1, hi);
    }
  }

  /** When a round is over, the next one starts with the same queue. */
  lemma NextRound(lens: seq<nat>, k: nat, j: nat)
    requires j <= |lens| && Waiting(lens, k, j, |lens|) == []
    ensures QueueIds(lens, k, j) == QueueIds(lens, k + 1, 0)
    ensures ServedUpTo(lens, k, j) == ServedUpTo(lens, k + 1, 0)
  {
    NobodyWaits(lens, k, j, |lens|);
    WaitingSplit(lens, k + 1, 0, j, |lens|);
    RoundSplit(lens, k, 0, j, |lens|);
  }

  /** A profile that is out of candidates changes nothing. */
  lemma PassedOver(lens: seq<nat>, k: nat, j: nat)
    requires j < |lens| && k > 0 && lens[j] <= k
    ensures Waiting(lens, k, j, |lens|) == Waiting(lens, k, j + 1, |lens|)
    ensures Waiting(lens, k + 1, 0, j + 1) == Waiting(lens, k + 1, 0, j)
    ensures ServedUpTo(lens, k, j + 1) == ServedUpTo(lens, k, j)
  {
    WaitingSplit(lens, k + 1, 0, j, j + 1);
    RoundSplit(lens, k, 0, j, j + 1);
    assert Waiting(lens, k + 1, j, j + 1) == [] && Round(lens, k, j, j + 1) == [];
  }

  /** The head of the queue: the next profile of the round, everybody in between being out of candidates. */
  lemma {:induction false} HeadOfQueue(lens: seq<nat>, k: nat, j: nat) returns (i: nat)
    requires j <= |lens| && Waiting(lens, k, j, |lens|) != []
    ensures j <= i < |lens| && (k == 0 || lens[i] > k)
    ensures Waiting(lens, k, j, |lens|) == [i] + Waiting(lens, k, i + 1, |lens|)
    ensures Waiting(lens, k + 1, 0, i) == Waiting(lens, k + 1, 0, j)
    ensures ServedUpTo(lens, k, i) == ServedUpTo(lens, k, j)
    decreases |lens| - j
  {
    if k == 0 || lens[j] > k {
      i := j;
    } else {
      PassedOver(lens, k, j);
      i := HeadOfQueue(lens, k, j + 1);
    }
  }

  /** Serving profile `i` and sending it to the back if it has more. */
  lemma AfterHead(lens: seq<nat>, k: nat, i: nat)
    requires i < |lens|
    ensures ServedUpTo(lens, k, i + 1) == ServedUpTo(lens, k, i) + (if lens[i] > k then [(i, k)] else [])
    ensures Waiting(lens, k + 1, 0, i + 1) == Waiting(lens, k + 1, 0, i) + (if lens[i] > k + 1 then [i] else [])
  {
    RoundSplit(lens, k, 0, i, i + 1);
    WaitingSplit(lens, k + 1, 0, i, i + 1);
  }

  /** A queue entry: the profile, the offset of the next page, and what is left of the last page. */
  datatype Entry<T> = Entry(profile: nat, offset: nat, buffered: seq<T>, exhausted: bool)

  /** An entry after `c` candidates of its profile. */
  ghost predicate EntryAt<T>(groups: seq<seq<T>>, e: Entry<T>, c: nat) {
    && e.profile < |groups|
    && var g := groups[e.profile];
       && c <= Min(e.offset, |g|) && e.buffered == g[c..Min(e.offset, |g|)]
       && (if e.exhausted then e.offset >= |g| && e.buffered != [] else e.offset == 0 || e.offset < |g|)
  }

  /** The queue stands in round `k` before profile `j`. */
  ghost predicate QueueAt<T>(groups: seq<seq<T>>, pending: seq<Entry<T>>, k: nat, j: nat)
    requires j <= |groups|
  {
    var lens := Lens(groups);
    var ids := QueueIds(lens, k, j);
    && |pending| == |ids|
    && forall p :: 0 <= p < |pending| ==>
         pending[p].profile == ids[p]
         && EntryAt(groups, pending[p], if p < |Waiting(lens, k, j, |lens|)| then k else k + 1)
  }

  /** The candidates named by picks. */
  ghost function Values<T>(groups: seq<seq<T>>, picks: seq<(nat, nat)>): seq<T>
    requires forall p :: 0 <= p < |picks| ==> picks[p].0 < |groups| && picks[p].1 < |groups[picks[p].0]|
  {
    seq(|picks|, p requires 0 <= p < |picks| => groups[picks[p].0][picks[p].1])
  }

  /** The candidate query of a profile: one row more than a page, to see whether there is another page. */
  function FetchPage<T>(group: seq<T>, offset: nat): seq<T>
    requires offset <= |group|
  {
    group[offset..Min(offset + PAGE_SIZE + 1, |group|)]
  }

  /** Sixteen of the seventeen rows are kept. */
  method Refill<T>(group: seq<T>, offset: nat) returns (buffered: seq<T>, exhausted: bool)
    requires offset <= |group|
    ensures buffered == group[offset..Min(offset + PAGE_SIZE, |group|)]
    ensures exhausted <==> offset + PAGE_SIZE >= |group|
  {
    var candidates := FetchPage(group, offset);
    buffered := if |candidates| <= PAGE_SIZE then candidates else candidates[..PAGE_SIZE];
    exhausted := |candidates| <= PAGE_SIZE;
  }

  /** One visit of a profile: refill the buffer if it is empty, yield at most one candidate. */
  method Visit<T>(groups: seq<seq<T>>, entry: Entry<T>, ghost c: nat)
    returns (candidate: seq<T>, next: Entry<T>)
    requires EntryAt(groups, entry, c)
    ensures candidate == if c < |groups[entry.profile]| then [groups[entry.profile][c]] else []
    ensures next.profile == entry.profile
    ensures (next.buffered != [] || !next.exhausted) <==> c + 1 < |groups[entry.profile]|
    ensures c + 1 < |groups[entry.profile]| ==> EntryAt(groups, next, c + 1)
  {
    var Entry(profile, offset, buffered, exhausted) := entry;
    ghost var g := groups[profile];
    if buffered == [] {
      assert c == offset;
      buffered, exhausted := Refill(groups[profile], offset);
      offset := offset + PAGE_SIZE;
    }
    assert buffered == g[c..Min(offset, |g|)];
    candidate := [];
    if buffered != [] {
      candidate, buffered := [buffered[0]], buffered[1..];
      assert buffered == g[c + 1..Min(offset, |g|)];
    }
    next := Entry(profile, offset, buffered, exhausted);
  }

  ghost predicate InRange<T>(groups: seq<seq<T>>, picks: seq<(nat, nat)>) {
    forall p :: 0 <= p < |picks| ==> picks[p].0 < |groups| && picks[p].1 < |groups[picks[p].0]|
  }

  lemma ServedInRange<T>(groups: seq<seq<T>>, k: nat, j: nat)
    requires j <= |groups|
    ensures InRange(groups, ServedUpTo(Lens(groups), k, j))
  {
    var lens := Lens(groups);
    RoundsContents(lens, k);
    RoundContents(lens, k, 0, j);
    var picks := ServedUpTo(lens, k, j);
    assert forall p :: 0 <= p < |picks| ==> picks[p] in Rounds(lens, k) || picks[p] in Round(lens, k, 0, j);
  }

  lemma ScheduleInRange<T>(groups: seq<seq<T>>)
    ensures InRange(groups, Schedule(Lens(groups)))
  {
    var lens := Lens(groups);
    ScheduleIsFairAndComplete(lens);
    var picks := Schedule(lens);
    assert forall p :: 0 <= p < |picks| ==> picks[p] in picks;
  }

  /** What has been yielded is the schedule up to the present position. */
  ghost predicate YieldedUpTo<T>(groups: seq<seq<T>>, yielded: seq<T>, k: nat, j: nat)
    requires j <= |groups|
  {
    var picks := ServedUpTo(Lens(groups), k, j);
    InRange(groups, picks) && yielded == Values(groups, picks)
  }

  lemma AdvanceQueue<T>(groups: seq<seq<T>>, pending: seq<Entry<T>>, k: nat, j: nat, i: nat,
                        next: Entry<T>, rest: seq<Entry<T>>)
    requires j <= i < |groups| && QueueAt(groups, pending, k, j) && pending != []
    requires var lens := Lens(groups);
             && Waiting(lens, k, j, |lens|) == [i] + Waiting(lens, k, i + 1, |lens|)
             && Waiting(lens, k + 1, 0, i) == Waiting(lens, k + 1, 0, j)
    requires k + 1 < |groups[i]| ==> next.profile == i && EntryAt(groups, next, k + 1)
    requires rest == pending[1..] + (if k + 1 < |groups[i]| then [next] else [])
    ensures QueueAt(groups, rest, k, i + 1)
  {
    var lens := Lens(groups);
    AfterHead(lens, k, i);
    var waiting, back := Waiting(lens, k, i + 1, |lens|), Waiting(lens, k + 1, 0, i);
    assert QueueIds(lens, k, j) == [i] + (waiting + back);
    assert QueueIds(lens, k, i + 1) == (waiting + back) + (if lens[i] > k + 1 then [i] else []);
    forall p | 0 <= p < |rest|
      ensures rest[p].profile == QueueIds(lens, k, i + 1)[p]
      ensures EntryAt(groups, rest[p], if p < |waiting| then k else k + 1)
    {
      if p < |pending| - 1 {
        assert rest[p] == pending[p + 1];
      } else {
        assert rest[p] == next;
      }
    }
  }

  lemma AdvanceYield<T>(groups: seq<seq<T>>, yielded: seq<T>, k: nat, j: nat, i: nat, candidate: seq<T>)
    requires j <= i < |groups| && YieldedUpTo(groups, yielded, k, j)
    requires ServedUpTo(Lens(groups), k, i) == ServedUpTo(Lens(groups), k, j)
    requires candidate == if k < |groups[i]| then [groups[i][k]] else []
    ensures YieldedUpTo(groups, yielded + candidate, k, i + 1)
  {
    var lens := Lens(groups);
    AfterHead(lens, k, i);
    ServedInRange(groups, k, i + 1);
    assert Values(groups, ServedUpTo(lens, k, i + 1)) == yielded + candidate;
  }

  /** Profile `i` is the next one of round `k` after profile `j`. */
  ghost predicate HeadAt(lens: seq<nat>, k: nat, j: nat, i: nat) {
    && j <= i < |lens|
    && Waiting(lens, k, j, |lens|) == [i] + Waiting(lens, k, i + 1, |lens|)
    && Waiting(lens, k + 1, 0, i) == Waiting(lens, k + 1, 0, j)
    && ServedUpTo(lens, k, i) == ServedUpTo(lens, k, j)
  }

  /** The queue and the output at one position of the schedule. */
  ghost predicate Stands<T>(groups: seq<seq<T>>, pending: seq<Entry<T>>, yielded: seq<T>, k: nat, j: nat) {
    j <= |groups| && QueueAt(groups, pending, k, j) && YieldedUpTo(groups, yielded, k, j)
  }

  lemma NextProfile<T>(groups: seq<seq<T>>, pending: seq<Entry<T>>, yielded: seq<T>, k: nat, j: nat)
    returns (k': nat, j': nat, i: nat)
    requires Stands(groups, pending, yielded, k, j) && pending != []
    ensures Stands(groups, pending, yielded, k', j') && HeadAt(Lens(groups), k', j', i)
    ensures pending[0].profile == i && EntryAt(groups, pending[0], k')
  {
    var lens := Lens(groups);
    k', j' := k, j;
    if Waiting(lens, k, j, |lens|) == [] {
      NextRound(lens, k, j);
      k', j' := k + 1, 0;
      assert QueueIds(lens, k', 0) == Waiting(lens, k', 0, |lens|);
    }
    i := HeadOfQueue(lens, k', j');
  }

  lemma Advance<T>(groups: seq<seq<T>>, pending: seq<Entry<T>>, yielded: seq<T>, k: nat, j: nat, i: nat,
                   candidate: seq<T>, next: Entry<T>, rest: seq<Entry<T>>)
    requires Stands(groups, pending, yielded, k, j) && HeadAt(Lens(groups), k, j, i) && pending != []
    requires candidate == if k < |groups[i]| then [groups[i][k]] else []
    requires k + 1 < |groups[i]| ==> next.profile == i && EntryAt(groups, next, k + 1)
    requires rest == pending[1..] + (if k + 1 < |groups[i]| then [next] else [])
    ensures Stands(groups, rest, yielded + candidate, k, i + 1)
  {
    AdvanceQueue(groups, pending, k, j, i, next, rest);
    AdvanceYield(groups, yielded, k, j, i, candidate);
  }

  /** The generator, drained: the first 256 candidates of the schedule, and whether more remain. */
  method Drain<T>(groups: seq<seq<T>>) returns (yielded: seq<T>, pendingLeft: bool)
    requires |groups| <= MAX_CANDIDATES
    ensures InRange(groups, Schedule(Lens(groups)))
    ensures yielded <= Values(groups, Schedule(Lens(groups)))
    ensures |yielded| == Min(Total(Lens(groups)), MAX_CANDIDATES)
    ensures pendingLeft <==> Total(Lens(groups)) > MAX_CANDIDATES
  {
    var pending: seq<Entry<T>> := seq(|groups|, i requires 0 <= i < |groups| => Entry(i, 0, [], false));
    yielded := [];
    ghost var k: nat, j: nat, i: nat := 0, 0, 0;
    StartOfQueue(groups, pending);
    while pending != [] && |yielded| < MAX_CANDIDATES
      invariant |yielded| <= MAX_CANDIDATES
      invariant Stands(groups, pending, yielded, k, j)
      decreases MAX_CANDIDATES - |yielded| + |pending|
    {
      k, j, i := NextProfile(groups, pending, yielded, k, j);
      var candidate, next := Visit(groups, pending[0], k);
      var rest := pending[1..];
      if next.buffered != [] || !next.exhausted {
        rest := rest + [next];
      }
      Advance(groups, pending, yielded, k, j, i, candidate, next, rest);
      yielded, pending := yielded + candidate, rest;
      j := i + 1;
    }
    Drained(groups, pending, yielded, k, j);
    pendingLeft := pending != [];
  }

  lemma {:induction false} EverybodyWaits(lens: seq<nat>, lo: nat)
    requires lo <= |lens|
    ensures |Waiting(lens, 0, lo, |lens|)| == |lens| - lo
    ensures forall p :: 0 <= p < |lens| - lo ==> Waiting(lens, 0, lo, |lens|)[p] == lo + p
    decreases |lens| - lo
  {
    if lo == |lens| {
    } else {
      EverybodyWaits(lens, lo + 1);
    }
  }

  lemma StartOfQueue<T>(groups: seq<seq<T>>, pending: seq<Entry<T>>)
    requires |pending| == |groups|
    requires forall i :: 0 <= i < |pending| ==> pending[i] == Entry(i, 0, [], false)
    ensures Stands(groups, pending, [], 0, 0)
  {
    EverybodyWaits(Lens(groups), 0);
  }

  lemma {:induction false} RoundShorter(lens: seq<nat>, k: nat, lo: nat, hi: nat)
    requires lo <= hi <= |lens|
    ensures |Round(lens, k, lo, hi)| <= hi - lo
    decreases hi - lo
  {
    if lo == hi {
    } else {
      RoundShorter(lens, k, lo + 1, hi);
      var head := if lens[lo] > k then [(lo, k)] else [];
      assert Round(lens, k, lo, hi) == head + Round(lens, k, lo + 1, hi) && |head| <= 1;
    }
  }

  /** At the end of the loop: an empty queue has served everybody, and a full budget with somebody left in the queue
      means that a candidate is left. */
  lemma Drained<T>(groups: seq<seq<T>>, pending: seq<Entry<T>>, yielded: seq<T>, k: nat, j: nat)
    requires |groups| <= MAX_CANDIDATES && |yielded| <= MAX_CANDIDATES
    requires Stands(groups, pending, yielded, k, j)
    requires pending == [] || |yielded| == MAX_CANDIDATES
    ensures InRange(groups, Schedule(Lens(groups))) && yielded <= Values(groups, Schedule(Lens(groups)))
    ensures |yielded| == Min(Total(Lens(groups)), MAX_CANDIDATES)
    ensures pending != [] <==> Total(Lens(groups)) > MAX_CANDIDATES
  {
    var lens := Lens(groups);
    ScheduleInRange(groups);
    ServedIsPrefix(lens, k, j);
    ScheduleLength(lens);
    var picks, all := ServedUpTo(lens, k, j), Schedule(lens);
    assert |yielded| == |picks|;
    if pending == [] {
      NobodyWaits(lens, k, j, |lens|);
      NextRound(lens, k, j);
      NothingQueued(lens, k + 1);
    } else {
      var i := SomebodyHasMore(lens, k, j);
      LeftOver(lens, k, j, i);
    }
  }

  /** An empty queue at the start of a round ends the schedule. */
  lemma NothingQueued(lens: seq<nat>, k: nat)
    requires k > 0 && QueueIds(lens, k, 0) == []
    ensures ServedUpTo(lens, k, 0) == Schedule(lens)
  {
    assert Waiting(lens, k, 0, |lens|) == [];
    NobodyTall(lens, k, 0);
    if k <= Longest(lens) {
      RoundsArePrefix(lens, k);
      LongestAttained(lens);
    } else {
      MoreRoundsServeTheSame(lens, k);
    }
  }

  lemma {:induction false} NobodyTall(lens: seq<nat>, k: nat, lo: nat)
    requires k > 0 && lo <= |lens| && Waiting(lens, k, lo, |lens|) == []
    ensures forall i :: lo <= i < |lens| ==> lens[i] <= k
    decreases |lens| - lo
  {
    if lo == |lens| {
    } else {
      NobodyTall(lens, k, lo + 1);
    }
  }

  lemma {:induction false} LongestAttained(lens: seq<nat>)
    ensures Longest(lens) > 0 ==> exists i :: 0 <= i < |lens| && lens[i] == Longest(lens)
  {
    if lens != [] && Longest(lens) > lens[0] {
      LongestAttained(lens[1..]);
      var i :| 0 <= i < |lens[1..]| && lens[1..][i] == Longest(lens[1..]);
      assert lens[i + 1] == Longest(lens);
    } else if lens != [] {
      assert lens[0] == Longest(lens);
    }
  }

  /** With 256 candidates yielded, whoever is still queued has a candidate that was not served. */
  lemma SomebodyHasMore(lens: seq<nat>, k: nat, j: nat) returns (i: nat)
    requires j <= |lens| <= MAX_CANDIDATES && QueueIds(lens, k, j) != []
    requires |ServedUpTo(lens, k, j)| == MAX_CANDIDATES
    ensures i < |lens| && lens[i] > (if i < j then k + 1 else k)
  {
    if Waiting(lens, k, j, |lens|) != [] {
      i := HeadOfQueue(lens, k, j);
      if k == 0 { RoundShorter(lens, 0, 0, j); }
    } else {
      i := FirstOf(lens, k + 1, 0, j);
    }
  }

  lemma {:induction false} FirstOf(lens: seq<nat>, k: nat, lo: nat, hi: nat) returns (i: nat)
    requires k > 0 && lo <= hi <= |lens| && Waiting(lens, k, lo, hi) != []
    ensures lo <= i < hi && lens[i] > k
    decreases hi - lo
  {
    if lens[lo] > k {
      i := lo;
    } else {
      i := FirstOf(lens, k, lo + 1, hi);
    }
  }

  lemma LeftOver(lens: seq<nat>, k: nat, j: nat, i: nat)
    requires j <= |lens| && i < |lens| && lens[i] > (if i < j then k + 1 else k)
    ensures |ServedUpTo(lens, k, j)| < |Schedule(lens)|
  {
    ServedIsPrefix(lens, k, j);
    ScheduleIsFairAndComplete(lens);
    RoundsContents(lens, k);
    RoundContents(lens, k, 0, j);
    var missing := (i, if i < j then k + 1 else k);
    assert missing in Schedule(lens);
    assert missing !in ServedUpTo(lens, k, j);
  }

  /** The profiles that are served: the query stops after 257 and the last one only signals that there are more. */
  function ServedProfiles<T>(groups: seq<seq<T>>): (r: seq<seq<T>>)
    ensures |r| <= MAX_CANDIDATES
  {
    if |groups| <= MAX_CANDIDATES then groups else groups[..MAX_CANDIDATES]
  }

  /** `_summary_candidates` with its profile query. */
  method SummaryCandidates<T>(groups: seq<seq<T>>) returns (yielded: seq<T>, raisesExhausted: bool)
    ensures InRange(ServedProfiles(groups), Schedule(Lens(ServedProfiles(groups))))
    ensures yielded <= Values(ServedProfiles(groups), Schedule(Lens(ServedProfiles(groups))))
    ensures |yielded| == Min(Total(Lens(ServedProfiles(groups))), MAX_CANDIDATES)
    ensures raisesExhausted <==> |groups| > MAX_CANDIDATES || Total(Lens(groups)) > MAX_CANDIDATES
  {
    var profiles := if |groups| <= MAX_CANDIDATES + 1 then groups else groups[..MAX_CANDIDATES + 1];
    var served := ServedProfiles(profiles);
    assert served == ServedProfiles(groups);
    var left: bool;
    yielded, left := Drain(served);
    raisesExhausted := left || |profiles| > MAX_CANDIDATES;
  }
}
