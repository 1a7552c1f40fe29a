/**
 * The waitlist table as a value: a sequence of rows in insertion order, each
 * with its event and its position. The queries of app/routers/waitlist.py are
 * functions here (`func.max` of positions, `order_by(position).first()`, the
 * rows of one event) and the renumbering after a removal is `ShiftDown`.
 *
 * The invariant `Ranked` says that a row's position is one more than the
 * number of earlier rows of the same event. From it follow the properties the
 * queue promises: the positions of an event are exactly 1..N, table order is
 * position order (FIFO), and joins and removals keep both.
 */
module Queue {
  import opened Wrappers
  import opened Models

  /** User ids of the event's waitlist rows, in table order. */
  function QueueOf(w: seq<Entry>, eventId: int): seq<int>
  {
    if w == [] then []
    else QueueOf(w[..|w| - 1], eventId)
         + (if w[|w| - 1].eventId == eventId then [w[|w| - 1].userId] else [])
  }

  /** The event's waitlist rows, in table order. */
  function EntriesOf(w: seq<Entry>, eventId: int): seq<Entry>
  {
    if w == [] then []
    else EntriesOf(w[..|w| - 1], eventId) + (if w[|w| - 1].eventId == eventId then [w[|w| - 1]] else [])
  }

  /** Row i's position is its rank among the rows of its event, counting from 1. */
  ghost predicate RankedAt(w: seq<Entry>, i: nat)
    requires i < |w|
  {
    w[i].position == |QueueOf(w[..i], w[i].eventId)| + 1
  }

  /** Every row is ranked. */
  ghost predicate Ranked(w: seq<Entry>)
  {
    forall i :: 0 <= i < |w| ==> RankedAt(w, i)
  }

  /** At most one row per (user, event): `join_waitlist` refuses a second one. */
  ghost predicate UniqueEntries(w: seq<Entry>)
  {
    forall i, j :: 0 <= i < j < |w| ==> DistinctAt(w, i, j)
  }

  /** Rows i and j are not for the same (user, event). */
  ghost predicate DistinctAt(w: seq<Entry>, i: nat, j: nat)
    requires i < |w| && j < |w|
  {
    w[i].eventId == w[j].eventId ==> w[i].userId != w[j].userId
  }

  /** The set of positions the event's rows hold. */
  function PositionsOf(w: seq<Entry>, eventId: int): set<int>
  {
    set i | 0 <= i < |w| && w[i].eventId == eventId :: w[i].position
  }

  /** `func.max(Waitlist.position)` over the event's rows; `None` when it has none. */
  function MaxPosition(w: seq<Entry>, eventId: int): (r: Option<int>)
    ensures r.None? <==> forall i :: 0 <= i < |w| ==> w[i].eventId != eventId
    ensures r.Some? ==> exists i :: 0 <= i < |w| && w[i].eventId == eventId && w[i].position == r.value
    ensures r.Some? ==> forall i :: 0 <= i < |w| && w[i].eventId == eventId ==> w[i].position <= r.value
  {
    if w == [] then None
    else
      var m := MaxPosition(w[..|w| - 1], eventId);
      var last := w[|w| - 1];
      if last.eventId != eventId then m
      else if m.Some? && m.value >= last.position then m
      else Some(last.position)
  }

  /**
   * `get_next_waitlist_position`: `(max_position or 0) + 1`. A maximum of 0 is
   * falsy, but it maps to 1 either way, so this is the maximum plus one.
   */
  function NextPosition(w: seq<Entry>, eventId: int): (r: int)
    ensures (forall i :: 0 <= i < |w| ==> w[i].eventId != eventId) ==> r == 1
    ensures forall i :: 0 <= i < |w| && w[i].eventId == eventId ==> w[i].position < r
    ensures (exists i :: 0 <= i < |w| && w[i].eventId == eventId) ==>
              exists i :: 0 <= i < |w| && w[i].eventId == eventId && w[i].position == r - 1
  {
    match MaxPosition(w, eventId)
    case None => 1
    case Some(m) => m + 1
  }

  /** Index of the first row of (user, event): the `.first()` lookups of join, leave and position. */
  function FindEntry(w: seq<Entry>, userId: int, eventId: int): (r: Option<nat>)
    ensures r.None? <==> forall i :: 0 <= i < |w| ==> !(w[i].userId == userId && w[i].eventId == eventId)
    ensures r.Some? ==> r.value < |w| && w[r.value].userId == userId && w[r.value].eventId == eventId
    ensures r.Some? ==> forall i :: 0 <= i < r.value ==> !(w[i].userId == userId && w[i].eventId == eventId)
  {
    if w == [] then None
    else if w[0].userId == userId && w[0].eventId == eventId then Some(0)
    else match FindEntry(w[1..], userId, eventId)
         case None => None
         case Some(k) => Some(k + 1)
  }

  /** Index of a row of the event with the lowest position: `order_by(position).first()`. */
  function LowestIndex(w: seq<Entry>, eventId: int): (r: Option<nat>)
    ensures r.None? <==> forall i :: 0 <= i < |w| ==> w[i].eventId != eventId
    ensures r.Some? ==> r.value < |w| && w[r.value].eventId == eventId
    ensures r.Some? ==> forall i :: 0 <= i < |w| && w[i].eventId == eventId ==> w[r.value].position <= w[i].position
  {
    if w == [] then None
    else
      var n := |w| - 1;
      var r := LowestIndex(w[..n], eventId);
      if w[n].eventId != eventId then r
      else if r.Some? && w[r.value].position <= w[n].position then r
      else Some(n)
  }

  /** One row after the renumbering loop: a row of the event behind `position` moves up one place. */
  function Shift(x: Entry, eventId: int, position: int): Entry
  {
    if x.eventId == eventId && x.position > position then x.(position := x.position - 1) else x
  }

  /** The table after `entry.position -= 1` for every row of the event with a higher position. */
  function ShiftDown(w: seq<Entry>, eventId: int, position: int): seq<Entry>
  {
    seq(|w|, i requires 0 <= i < |w| => Shift(w[i], eventId, position))
  }

  /** The table after `db.delete` of row j. */
  function RemoveAt(w: seq<Entry>, j: nat): seq<Entry>
    requires j < |w|
  {
    w[..j] + w[j + 1..]
  }

  /** Two tables with the same users and events row by row (positions may differ). */
  ghost predicate SameKeys(a: seq<Entry>, b: seq<Entry>)
  {
    |a| == |b| && forall k :: 0 <= k < |a| ==> a[k].userId == b[k].userId && a[k].eventId == b[k].eventId
  }

  // ---------------------------------------------------------------------
  // Lemmas about QueueOf

  lemma {:induction false} QueueOfConcat(a: seq<Entry>, b: seq<Entry>, eventId: int)
    ensures QueueOf(a + b, eventId) == QueueOf(a, eventId) + QueueOf(b, eventId)
    decreases |b|
  {
    if b == [] {
      assert a + b == a;
    } else {
      assert (a + b)[..|a + b| - 1] == a + b[..|b| - 1];
      QueueOfConcat(a, b[..|b| - 1], eventId);
    }
  }

  lemma QueueOfSingle(x: Entry, eventId: int)
    ensures QueueOf([x], eventId) == if x.eventId == eventId then [x.userId] else []
  {
    assert [x][..0] == [];
  }

  /** Splitting a slice of the table splits its queue. */
  lemma QueueOfSplit(w: seq<Entry>, a: nat, b: nat, c: nat, eventId: int)
    requires a <= b <= c <= |w|
    ensures QueueOf(w[a..c], eventId) == QueueOf(w[a..b], eventId) + QueueOf(w[b..c], eventId)
  {
    assert w[a..c] == w[a..b] + w[b..c];
    QueueOfConcat(w[a..b], w[b..c], eventId);
  }

  lemma {:induction false} QueueOfSameKeys(a: seq<Entry>, b: seq<Entry>, eventId: int)
    requires SameKeys(a, b)
    ensures QueueOf(a, eventId) == QueueOf(b, eventId)
    decreases |a|
  {
    if a != [] {
      QueueOfSameKeys(a[..|a| - 1], b[..|b| - 1], eventId);
    }
  }

  lemma {:induction false} QueueOfEmpty(w: seq<Entry>, eventId: int)
    ensures QueueOf(w, eventId) == [] <==> forall i :: 0 <= i < |w| ==> w[i].eventId != eventId
    decreases |w|
  {
    if w != [] {
      var n := |w| - 1;
      QueueOfEmpty(w[..n], eventId);
      assert forall i :: 0 <= i < n ==> w[..n][i] == w[i];
    }
  }

  /** An earlier row of the event ranks strictly lower than any later row's prefix count. */
  lemma EarlierRanksLower(w: seq<Entry>, i: nat, k: nat)
    requires i < k <= |w|
    ensures |QueueOf(w[..i], w[i].eventId)| + 1 <= |QueueOf(w[..k], w[i].eventId)|
  {
    var e := w[i].eventId;
    assert w[..k] == w[..i] + w[i..k];
    QueueOfConcat(w[..i], w[i..k], e);
    QueueOfSplit(w, i, i + 1, k, e);
    assert w[i..i + 1] == [w[i]];
    QueueOfSingle(w[i], e);
  }

  lemma RankedPrefix(w: seq<Entry>, n: nat)
    requires Ranked(w) && n <= |w|
    ensures Ranked(w[..n])
  {
    forall i | 0 <= i < n ensures RankedAt(w[..n], i) {
      assert RankedAt(w, i);
      assert w[..n][..i] == w[..i];
    }
  }

  /** A row of a ranked table sits in its event's queue at the place its position names. */
  lemma RankOf(w: seq<Entry>, i: nat)
    requires Ranked(w) && i < |w|
    ensures QueueOf(w, w[i].eventId)
            == QueueOf(w[..i], w[i].eventId) + [w[i].userId] + QueueOf(w[i + 1..], w[i].eventId)
    ensures 1 <= w[i].position <= |QueueOf(w, w[i].eventId)|
    ensures QueueOf(w, w[i].eventId)[w[i].position - 1] == w[i].userId
  {
    var e := w[i].eventId;
    assert RankedAt(w, i);
    assert w == w[..i] + w[i..];
    QueueOfConcat(w[..i], w[i..], e);
    assert w[i..] == [w[i]] + w[i + 1..];
    QueueOfConcat([w[i]], w[i + 1..], e);
    QueueOfSingle(w[i], e);
  }

  // ---------------------------------------------------------------------
  // Ranked tables: positions are 1..N and table order is FIFO order

  /** In a ranked table the highest position of an event is its number of rows. */
  lemma {:induction false} MaxPositionRanked(w: seq<Entry>, eventId: int)
    requires Ranked(w)
    ensures MaxPosition(w, eventId)
            == if QueueOf(w, eventId) == [] then None else Some(|QueueOf(w, eventId)|)
    decreases |w|
  {
    if w != [] {
      var n := |w| - 1;
      RankedPrefix(w, n);
      MaxPositionRanked(w[..n], eventId);
      assert RankedAt(w, n);
    }
  }

  /** `get_next_waitlist_position` on a ranked table: one more than the event's row count. */
  lemma NextPositionRanked(w: seq<Entry>, eventId: int)
    requires Ranked(w)
    ensures NextPosition(w, eventId) == |QueueOf(w, eventId)| + 1
  {
    MaxPositionRanked(w, eventId);
  }

  /** The positions of an event's rows are exactly 1..N, N its number of rows: no gap, no duplicate. */
  lemma {:induction false} PositionsContiguous(w: seq<Entry>, eventId: int)
    requires Ranked(w)
    ensures forall k :: k in PositionsOf(w, eventId) <==> 1 <= k <= |QueueOf(w, eventId)|
    decreases |w|
  {
    if w != [] {
      var n := |w| - 1;
      RankedPrefix(w, n);
      PositionsContiguous(w[..n], eventId);
      var before := PositionsOf(w[..n], eventId);
      var extra: set<int> := if w[n].eventId == eventId then {w[n].position} else {};
      assert PositionsOf(w, eventId) == before + extra by {
        forall x ensures x in PositionsOf(w, eventId) <==> x in before + extra {
          if x in PositionsOf(w, eventId) {
            var i :| 0 <= i < |w| && w[i].eventId == eventId && w[i].position == x;
            if i < n { assert w[..n][i] == w[i]; }
          }
          if x in before {
            var i :| 0 <= i < n && w[..n][i].eventId == eventId && w[..n][i].position == x;
            assert w[i] == w[..n][i];
          }
        }
      }
      assert RankedAt(w, n);
    }
  }

  /** The event's rows, read in table order, are its queue with positions 1, 2, ...: already sorted. */
  lemma {:induction false} EntriesOfRanked(w: seq<Entry>, eventId: int)
    requires Ranked(w)
    ensures |EntriesOf(w, eventId)| == |QueueOf(w, eventId)|
    ensures forall i :: 0 <= i < |EntriesOf(w, eventId)| ==>
              EntriesOf(w, eventId)[i] == Entry(QueueOf(w, eventId)[i], eventId, i + 1)
    decreases |w|
  {
    if w != [] {
      var n := |w| - 1;
      RankedPrefix(w, n);
      EntriesOfRanked(w[..n], eventId);
      assert RankedAt(w, n);
    }
  }

  /** The row `order_by(position).first()` finds is the one at position 1, the head of the queue. */
  lemma FrontIsHead(w: seq<Entry>, eventId: int)
    requires Ranked(w) && LowestIndex(w, eventId).Some?
    ensures var j := LowestIndex(w, eventId).value;
            && w[j].position == 1
            && QueueOf(w, eventId) != []
            && QueueOf(w, eventId)[0] == w[j].userId
  {
    var j := LowestIndex(w, eventId).value;
    RankOf(w, j);
    assert RankedAt(w, j);
    if QueueOf(w[..j], eventId) != [] {
      QueueOfEmpty(w[..j], eventId);
      var i :| 0 <= i < j && w[..j][i].eventId == eventId;
      assert w[i] == w[..j][i];
      assert RankedAt(w, i);
      EarlierRanksLower(w, i, j);
      assert false;
    }
  }

  // ---------------------------------------------------------------------
  // Joining: append at position max + 1

  lemma JoinPreservesRanked(w: seq<Entry>, x: Entry)
    requires Ranked(w) && x.position == NextPosition(w, x.eventId)
    ensures Ranked(w + [x])
    ensures QueueOf(w + [x], x.eventId) == QueueOf(w, x.eventId) + [x.userId]
    ensures forall e :: e != x.eventId ==> QueueOf(w + [x], e) == QueueOf(w, e)
  {
    NextPositionRanked(w, x.eventId);
    assert (w + [x])[..|w|] == w;
    forall i | 0 <= i < |w| + 1 ensures RankedAt(w + [x], i) {
      if i < |w| {
        assert RankedAt(w, i);
        assert (w + [x])[..i] == w[..i];
      }
    }
  }

  lemma JoinPreservesUnique(w: seq<Entry>, x: Entry)
    requires UniqueEntries(w) && FindEntry(w, x.userId, x.eventId).None?
    ensures UniqueEntries(w + [x])
  {
    var w' := w + [x];
    forall i, j | 0 <= i < j < |w'| ensures DistinctAt(w', i, j) {
      if j < |w| {
        assert DistinctAt(w, i, j);
      }
    }
  }

  // ---------------------------------------------------------------------
  // Removing a row and shifting the later rows of its event down by one

  lemma ShiftDownSameKeys(w: seq<Entry>, eventId: int, position: int, a: nat, b: nat)
    requires a <= b <= |w|
    ensures SameKeys(ShiftDown(w, eventId, position)[a..b], w[a..b])
  {
  }

  /** A row before the removed one keeps its position and its rank. */
  lemma RemoveRankedBefore(w: seq<Entry>, j: nat, i: nat)
    requires Ranked(w) && i < j < |w|
    ensures RankedAt(RemoveAt(ShiftDown(w, w[j].eventId, w[j].position), j), i)
  {
    var e, p := w[j].eventId, w[j].position;
    var s := ShiftDown(w, e, p);
    var w' := RemoveAt(s, j);
    var ee := w'[i].eventId;
    assert w'[i] == s[i] && w'[..i] == s[..i];
    ShiftDownSameKeys(w, e, p, 0, i);
    assert s[..i] == s[0..i] && w[..i] == w[0..i];
    QueueOfSameKeys(s[..i], w[..i], ee);
    assert RankedAt(w, i) && RankedAt(w, j);
    if w[i].eventId == e {
      EarlierRanksLower(w, i, j);
    }
  }

  /** Removing row j takes one row of its event out of every later row's prefix. */
  lemma RemovedPrefixQueue(w: seq<Entry>, j: nat, i: nat, ee: int)
    requires j <= i < |w| - 1
    ensures var s := ShiftDown(w, w[j].eventId, w[j].position);
            |QueueOf(RemoveAt(s, j)[..i], ee)| + (if w[j].eventId == ee then 1 else 0)
            == |QueueOf(w[..i + 1], ee)|
  {
    var e, p := w[j].eventId, w[j].position;
    var s := ShiftDown(w, e, p);
    var w' := RemoveAt(s, j);
    assert w'[..i] == s[..j] + s[j + 1..i + 1];
    QueueOfConcat(s[..j], s[j + 1..i + 1], ee);
    ShiftDownSameKeys(w, e, p, 0, j);
    ShiftDownSameKeys(w, e, p, j + 1, i + 1);
    assert s[..j] == s[0..j] && w[..j] == w[0..j];
    QueueOfSameKeys(s[..j], w[..j], ee);
    QueueOfSameKeys(s[j + 1..i + 1], w[j + 1..i + 1], ee);
    assert w[..i + 1] == (w[..j] + [w[j]]) + w[j + 1..i + 1];
    QueueOfConcat(w[..j] + [w[j]], w[j + 1..i + 1], ee);
    QueueOfConcat(w[..j], [w[j]], ee);
    QueueOfSingle(w[j], ee);
  }

  /** A row after the removed one moves up one place exactly when it belongs to the same event. */
  lemma RemoveRankedAfter(w: seq<Entry>, j: nat, i: nat)
    requires j <= i < |w| - 1 && RankedAt(w, i + 1) && RankedAt(w, j)
    ensures RankedAt(RemoveAt(ShiftDown(w, w[j].eventId, w[j].position), j), i)
  {
    var e, p := w[j].eventId, w[j].position;
    var s := ShiftDown(w, e, p);
    var w' := RemoveAt(s, j);
    assert w'[i] == s[i + 1];
    RemovedPrefixQueue(w, j, i, w'[i].eventId);
    if w[i + 1].eventId == e {
      EarlierRanksLower(w, j, i + 1);
      assert w[..j + 1] == w[..j] + [w[j]];
      QueueOfConcat(w[..j], [w[j]], e);
      QueueOfSingle(w[j], e);
    }
  }

  /**
   * `leave_waitlist` and the promotion remove row j and shift the later rows
   * of its event down: the table stays ranked, the event's queue loses exactly
   * that user and keeps the others in order, and other events are untouched.
   */
  lemma RemovePreservesRanked(w: seq<Entry>, j: nat)
    requires Ranked(w) && j < |w|
    ensures var e, p := w[j].eventId, w[j].position;
            var w' := RemoveAt(ShiftDown(w, e, p), j);
            && |w'| == |w| - 1
            && Ranked(w')
            && 1 <= p <= |QueueOf(w, e)|
            && QueueOf(w', e) == QueueOf(w, e)[..p - 1] + QueueOf(w, e)[p..]
            && (forall e' :: e' != e ==> QueueOf(w', e') == QueueOf(w, e'))
  {
    var e, p := w[j].eventId, w[j].position;
    var w' := RemoveAt(ShiftDown(w, e, p), j);
    forall i | 0 <= i < |w'| ensures RankedAt(w', i) {
      if i < j {
        RemoveRankedBefore(w, j, i);
      } else {
        assert RankedAt(w, i + 1) && RankedAt(w, j);
        RemoveRankedAfter(w, j, i);
      }
    }
    RankOf(w, j);
    assert RankedAt(w, j);
    RemovedQueue(w, j, e);
    forall e' | e' != e ensures QueueOf(w', e') == QueueOf(w, e') {
      RemovedQueue(w, j, e');
    }
    var q := QueueOf(w, e);
    assert q[..p - 1] == QueueOf(w[..j], e);
    assert q[p..] == QueueOf(w[j + 1..], e);
  }

  /** The queue of any event after removing row j: the rows before j, then the rows after it. */
  lemma RemovedQueue(w: seq<Entry>, j: nat, e': int)
    requires j < |w|
    ensures var s := ShiftDown(w, w[j].eventId, w[j].position);
            && QueueOf(RemoveAt(s, j), e') == QueueOf(w[..j], e') + QueueOf(w[j + 1..], e')
            && QueueOf(w, e') == QueueOf(w[..j], e') + QueueOf([w[j]], e') + QueueOf(w[j + 1..], e')
  {
    var e, p := w[j].eventId, w[j].position;
    var s := ShiftDown(w, e, p);
    QueueOfConcat(s[..j], s[j + 1..], e');
    ShiftDownSameKeys(w, e, p, 0, j);
    ShiftDownSameKeys(w, e, p, j + 1, |w|);
    assert s[..j] == s[0..j] && w[..j] == w[0..j];
    assert s[j + 1..] == s[j + 1..|w|] && w[j + 1..] == w[j + 1..|w|];
    QueueOfSameKeys(s[..j], w[..j], e');
    QueueOfSameKeys(s[j + 1..], w[j + 1..], e');
    assert w == (w[..j] + [w[j]]) + w[j + 1..];
    QueueOfConcat(w[..j] + [w[j]], w[j + 1..], e');
    QueueOfConcat(w[..j], [w[j]], e');
  }

  /** Deleting first and renumbering after (the promotion) ends where renumbering first does (leave). */
  lemma RemoveShiftCommute(w: seq<Entry>, j: nat, eventId: int, position: int)
    requires j < |w|
    ensures ShiftDown(RemoveAt(w, j), eventId, position) == RemoveAt(ShiftDown(w, eventId, position), j)
  {
  }

  /** Removing a row keeps rows unique and leaves the removed user off that event's list. */
  lemma RemovePreservesUnique(w: seq<Entry>, j: nat)
    requires UniqueEntries(w) && j < |w|
    ensures var w' := RemoveAt(ShiftDown(w, w[j].eventId, w[j].position), j);
            && UniqueEntries(w')
            && FindEntry(w', w[j].userId, w[j].eventId).None?
  {
    var e, p := w[j].eventId, w[j].position;
    var s := ShiftDown(w, e, p);
    var w' := RemoveAt(s, j);
    forall a, b | 0 <= a < b < |w'| ensures DistinctAt(w', a, b) {
      var a0, b0 := if a < j then a else a + 1, if b < j then b else b + 1;
      assert w'[a].userId == w[a0].userId && w'[a].eventId == w[a0].eventId;
      assert w'[b].userId == w[b0].userId && w'[b].eventId == w[b0].eventId;
      assert DistinctAt(w, a0, b0);
    }
    forall k | 0 <= k < |w'| ensures !(w'[k].userId == w[j].userId && w'[k].eventId == e) {
      var k0 := if k < j then k else k + 1;
      assert w'[k].userId == w[k0].userId && w'[k].eventId == w[k0].eventId;
      if k0 < j { assert DistinctAt(w, k0, j); } else { assert DistinctAt(w, j, k0); }
    }
  }

  /**
   * Promoting the head: the row of lowest position is the queue's first user
   * at position 1; deleting it and shifting the event's other rows down keeps
   * the table ranked and unique and leaves the rest of the queue in order.
   */
  lemma PopHead(w: seq<Entry>, eventId: int)
    requires Ranked(w) && UniqueEntries(w) && LowestIndex(w, eventId).Some?
    ensures var j := LowestIndex(w, eventId).value;
            var q := QueueOf(w, eventId);
            var w' := RemoveAt(ShiftDown(w, eventId, 1), j);
            && q != []
            && w[j].position == 1 && w[j].userId == q[0]
            && ShiftDown(RemoveAt(w, j), eventId, 1) == w'
            && Ranked(w') && UniqueEntries(w')
            && QueueOf(w', eventId) == q[1..]
            && (forall e :: e != eventId ==> QueueOf(w', e) == QueueOf(w, e))
  {
    var j := LowestIndex(w, eventId).value;
    FrontIsHead(w, eventId);
    RemovePreservesRanked(w, j);
    RemovePreservesUnique(w, j);
    RemoveShiftCommute(w, j, eventId, 1);
    var q := QueueOf(w, eventId);
    assert q[..0] + q[1..] == q[1..];
  }
}
