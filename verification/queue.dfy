/**
 * The watch queue as a value: the ordered entries and the index of the current
 * one, with the list operations behind add, remove and drag-and-drop reorder.
 */
module Queue {

  /** One queued video, as the tile extractor and the auto-add detector build it. */
  datatype Entry = Entry(id: string, url: string, title: string, thumbnail: string, duration: string, subchannel: string)

  /** No two entries share an id. */
  predicate UniqueIds(q: seq<Entry>) {
    forall i, j :: 0 <= i < j < |q| ==> q[i].id != q[j].id
  }

  /** The persistent part of the global state: `queue` and `currentIndex` (-1 when none is current). */
  datatype QueueState = QueueState(entries: seq<Entry>, current: int) {
    /** The queue invariant: unique ids and a current index that is -1 or a position of the list. */
    predicate Valid() {
      UniqueIds(entries) && -1 <= current < |entries|
    }
  }

  /** `q.findIndex(v => v.id === id)`: the first position holding `id`, or -1. */
  function IndexOf(q: seq<Entry>, id: string): (k: int)
    ensures -1 <= k < |q|
    ensures k >= 0 ==> q[k].id == id && forall j :: 0 <= j < k ==> q[j].id != id
    ensures k == -1 ==> forall j :: 0 <= j < |q| ==> q[j].id != id
  {
    if q == [] then -1
    else if q[0].id == id then 0
    else
      var k := IndexOf(q[1..], id);
      if k == -1 then -1 else k + 1
  }

  /** The linear search the script runs for `findIndex`. */
  method FindIndex(q: seq<Entry>, id: string) returns (k: int)
    ensures k == IndexOf(q, id)
  {
    k := 0;
    while k < |q|
      invariant 0 <= k <= |q|
      invariant forall j :: 0 <= j < k ==> q[j].id != id
    {
      if q[k].id == id {
        return;
      }
      k := k + 1;
    }
    k := -1;
  }

  // ---- add ----

  /** The list after `addToQueue(v)`: `v` is appended unless its id is already queued. */
  function WithEntry(q: seq<Entry>, v: Entry): (r: seq<Entry>)
    ensures q <= r && |r| <= |q| + 1
    ensures IndexOf(r, v.id) != -1
    ensures |r| > |q| ==> r[|q|] == v && IndexOf(q, v.id) == -1
  {
    if IndexOf(q, v.id) == -1 then
      assert (q + [v])[|q|].id == v.id;
      q + [v]
    else q
  }

  /** Adding never creates a duplicate id; a known id leaves the list unchanged, a new one is
      appended at the end, and the old list is kept as a prefix. */
  lemma AddNeverDuplicates(q: seq<Entry>, v: Entry)
    ensures var r := WithEntry(q, v);
      (UniqueIds(q) ==> UniqueIds(r))
      && q <= r && |r| <= |q| + 1
      && IndexOf(r, v.id) == (if IndexOf(q, v.id) == -1 then |q| else IndexOf(q, v.id))
      && (IndexOf(q, v.id) != -1 ==> r == q)
      && (IndexOf(q, v.id) == -1 ==> |r| == |q| + 1 && r[|q|] == v)
  {
    var r := WithEntry(q, v);
    if IndexOf(q, v.id) == -1 {
      assert r[|q|].id == v.id;
      assert forall j :: 0 <= j < |q| ==> r[j] == q[j];
    }
  }

  // ---- remove ----

  /** `removeFromQueue(i)`: `splice(i, 1)`, then the current index is decremented when
      `current >= i && current > 0` and clamped to the new last position. */
  function RemoveAt(s: QueueState, i: nat): (r: QueueState)
    requires i < |s.entries|
    ensures |r.entries| == |s.entries| - 1
    ensures forall j :: 0 <= j < i ==> r.entries[j] == s.entries[j]
    ensures forall j :: i <= j < |r.entries| ==> r.entries[j] == s.entries[j + 1]
  {
    var entries := s.entries[..i] + s.entries[i + 1..];
    var c := if s.current >= i && s.current > 0 then s.current - 1 else s.current;
    QueueState(entries, if c >= |entries| then |entries| - 1 else c)
  }

  /** Removal keeps the invariant; whenever the index was at least -1 it stays within
      [-1, |entries|), so emptying the list always leaves -1, and no current entry stays none. */
  lemma RemoveKeepsIndexInBounds(s: QueueState, i: nat)
    requires i < |s.entries|
    ensures var r := RemoveAt(s, i);
      (s.current >= -1 ==> -1 <= r.current < |r.entries|)
      && (s.current >= -1 && r.entries == [] ==> r.current == -1)
      && (s.current == -1 ==> r.current == -1)
      && (s.Valid() ==> r.Valid())
  {
    var r := RemoveAt(s, i);
    if s.Valid() {
      forall a, b | 0 <= a < b < |r.entries| ensures r.entries[a].id != r.entries[b].id {
        var a' := if a < i then a else a + 1;
        var b' := if b < i then b else b + 1;
        assert r.entries[a] == s.entries[a'] && r.entries[b] == s.entries[b'];
      }
    }
  }

  /** When another entry is removed the index follows the entry it designated; when the
      current entry itself is removed it falls back to the one before, or to the new first
      entry when it was the first. */
  lemma RemoveTracksCurrent(s: QueueState, i: nat)
    requires i < |s.entries| && 0 <= s.current < |s.entries|
    ensures var r := RemoveAt(s, i);
      (s.current != i ==> 0 <= r.current < |r.entries| && r.entries[r.current] == s.entries[s.current])
      && (s.current == i && i > 0 ==> r.current == i - 1)
      && (s.current == i == 0 ==> r.current == (if |r.entries| == 0 then -1 else 0))
  {
    var r := RemoveAt(s, i);
    if s.current > i {
      assert r.current == s.current - 1;
      assert r.entries[s.current - 1] == s.entries[s.current];
    } else if s.current < i {
      assert r.current == s.current;
    }
  }

  // ---- reorder ----

  /** The two splices of the drop handler: take the entry out at `from`, put it back at `to`
      of the shortened list. */
  function Moved(q: seq<Entry>, from: nat, to: nat): (r: seq<Entry>)
    requires from < |q| && to < |q|
    ensures |r| == |q| && r[to] == q[from]
  {
    var rest := q[..from] + q[from + 1..];
    rest[..to] + [q[from]] + rest[to..]
  }

  /** The drop handler's three-branch rule for the current index. */
  function MoveAdjust(current: int, from: nat, to: nat): (r: int)
    ensures r == to <==> current == from
    ensures current < 0 ==> r == current
    ensures current - 1 <= r <= current + 1 || current == from
  {
    if current == from then to
    else if from < current && to >= current then current - 1
    else if from > current && to <= current then current + 1
    else current
  }

  /** The position before the move of the entry found at position `k` after it. */
  function MoveSource(from: nat, to: nat, k: nat): nat
  {
    if k == to then from
    else
      var j := if k < to then k else k - 1;
      if j < from then j else j + 1
  }

  /** Every position of the moved list holds the entry from its source position. */
  lemma MovedAt(q: seq<Entry>, from: nat, to: nat, k: nat)
    requires from < |q| && to < |q| && k < |q|
    ensures MoveSource(from, to, k) < |q|
    ensures Moved(q, from, to)[k] == q[MoveSource(from, to, k)]
  {
    var rest := q[..from] + q[from + 1..];
    assert Moved(q, from, to) == rest[..to] + [q[from]] + rest[to..];
    if k < to {
      assert Moved(q, from, to)[k] == rest[k];
    } else if k > to {
      assert Moved(q, from, to)[k] == rest[k - 1];
    }
  }

  /** Reordering is a permutation: the multiset of entries is unchanged. */
  lemma {:induction false} MovedIsPermutation(q: seq<Entry>, from: nat, to: nat)
    requires from < |q| && to < |q|
    ensures multiset(Moved(q, from, to)) == multiset(q)
  {
    var rest := q[..from] + q[from + 1..];
    assert q == q[..from] + [q[from]] + q[from + 1..];
    assert rest == rest[..to] + rest[to..];
    calc {
      multiset(Moved(q, from, to));
      multiset(rest[..to]) + multiset([q[from]]) + multiset(rest[to..]);
      multiset(rest) + multiset([q[from]]);
      multiset(q[..from]) + multiset(q[from + 1..]) + multiset([q[from]]);
      multiset(q);
    }
  }

  /** Reordering keeps ids unique. */
  lemma MoveKeepsUnique(q: seq<Entry>, from: nat, to: nat)
    requires from < |q| && to < |q| && UniqueIds(q)
    ensures UniqueIds(Moved(q, from, to))
  {
    var r := Moved(q, from, to);
    forall a, b | 0 <= a < b < |r| ensures r[a].id != r[b].id {
      MovedAt(q, from, to, a);
      MovedAt(q, from, to, b);
    }
  }

  /** The adjusted index designates, after the move, the entry the old index designated,
      and -1 stays -1. */
  lemma MoveTracksCurrent(q: seq<Entry>, from: nat, to: nat, current: int)
    requires from < |q| && to < |q| && -1 <= current < |q|
    ensures current == -1 ==> MoveAdjust(current, from, to) == -1
    ensures 0 <= current ==>
              0 <= MoveAdjust(current, from, to) < |q| && Moved(q, from, to)[MoveAdjust(current, from, to)] == q[current]
  {
    if 0 <= current {
      var k := MoveAdjust(current, from, to);
      assert MoveSource(from, to, k) == current;
      MovedAt(q, from, to, k);
    }
  }

  /** Dropping an entry on its own row changes nothing, so the handler's `from !== to` guard
      only saves a redundant write. */
  lemma MoveToSelfIsIdentity(q: seq<Entry>, i: nat, current: int)
    requires i < |q|
    ensures Moved(q, i, i) == q && MoveAdjust(current, i, i) == current
  {
    assert Moved(q, i, i) == q[..i] + [q[i]] + q[i + 1..];
    assert q == q[..i] + [q[i]] + q[i + 1..];
  }

  /** The reorder on the whole state; the handler skips it when `from == to`. */
  function MoveEntry(s: QueueState, from: nat, to: nat): (r: QueueState)
    requires from < |s.entries| && to < |s.entries|
    ensures |r.entries| == |s.entries| && r.entries[to] == s.entries[from]
    ensures r.current == to <==> s.current == from
    ensures from == to ==> r == s
  {
    if from == to then s else QueueState(Moved(s.entries, from, to), MoveAdjust(s.current, from, to))
  }

  /** Reordering a valid state gives a valid state holding the same entries, whose current
      entry is the one that was current before. */
  lemma MoveKeepsValid(s: QueueState, from: nat, to: nat)
    requires s.Valid() && from < |s.entries| && to < |s.entries|
    ensures var r := MoveEntry(s, from, to);
      r.Valid() && multiset(r.entries) == multiset(s.entries)
      && (s.current == -1 ==> r.current == -1)
      && (s.current >= 0 ==> r.entries[r.current] == s.entries[s.current])
  {
    if from != to {
      MovedIsPermutation(s.entries, from, to);
      MoveKeepsUnique(s.entries, from, to);
      MoveTracksCurrent(s.entries, from, to, s.current);
    }
  }
}
