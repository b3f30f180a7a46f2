/** The container (src/ToastContainer.tsx): it groups the provider's list into
    one stack per screen position and wires each toast's close to a removal. */
module ToastContainer {
  import opened Wrappers
  import opened ToastTypes
  import ToastContext

  /** The stack a toast goes to: its position, or top-right when it has none. */
  function PositionOf(t: Toast): (p: ToastPosition)
    ensures t.position.None? ==> p == TopRight
    ensures t.position.Some? ==> p == t.position.value
  {
    t.position.GetOr(TopRight)
  }

  /** One stack: a position and the toasts shown there, top to bottom. */
  datatype Group = Group(position: ToastPosition, toasts: seq<Toast>)

  /** An update that gives the position as `undefined` moves the toast to the top-right stack. */
  lemma UndefinedPositionGoesTopRight(t: Toast)
    ensures PositionOf(ToastContext.Merge(t, ToastContext.NoUpdate().(position := Some(None)))) == TopRight
  {
  }

  // ---------------------------------------------------------------------------
  // The grouping, stated as functions over the list (built from the back, one
  // toast at a time, as the reduce does)

  /** The positions that occur in the list, each once, in order of first occurrence. */
  function Positions(ts: seq<Toast>): seq<ToastPosition>
    decreases |ts|
  {
    if ts == [] then []
    else
      var ps := Positions(ts[..|ts| - 1]);
      var p := PositionOf(ts[|ts| - 1]);
      if p in ps then ps else ps + [p]
  }

  /** The toasts whose position is `p`, in list order. */
  function Bucket(ts: seq<Toast>, p: ToastPosition): seq<Toast>
    decreases |ts|
  {
    if ts == [] then []
    else Bucket(ts[..|ts| - 1], p) + (if PositionOf(ts[|ts| - 1]) == p then [ts[|ts| - 1]] else [])
  }

  /** The stacks the container renders, in the order it renders them. */
  function PositionGroups(ts: seq<Toast>): seq<Group> {
    var ps := Positions(ts);
    seq(|ps|, i requires 0 <= i < |ps| => Group(ps[i], Bucket(ts, ps[i])))
  }

  /** All toasts of a list of stacks, stack after stack. */
  function Flatten(gs: seq<Group>): seq<Toast>
    decreases |gs|
  {
    if gs == [] then [] else Flatten(gs[..|gs| - 1]) + gs[|gs| - 1].toasts
  }

  // ---------------------------------------------------------------------------
  // The reduce itself

  /** The `positionGroups` reduce: an object from position to list, filled in
      place, whose keys come out in insertion order (`order`). */
  method GroupByPosition(toasts: seq<Toast>) returns (groups: seq<Group>)
    ensures groups == PositionGroups(toasts)
  {
    var order: seq<ToastPosition> := [];
    var buckets: map<ToastPosition, seq<Toast>> := map[];
    var i := 0;
    while i < |toasts|
      invariant 0 <= i <= |toasts|
      invariant order == Positions(toasts[..i])
      invariant forall p :: p in buckets <==> p in order
      invariant forall p :: p in buckets ==> buckets[p] == Bucket(toasts[..i], p)
    {
      var toast := toasts[i];
      var position := toast.position.GetOr(TopRight);
      if position !in buckets {
        BucketOfAbsent(toasts[..i], position);
        buckets := buckets[position := []];
        order := order + [position];
      }
      buckets := buckets[position := buckets[position] + [toast]];
      assert toasts[..i + 1][..i] == toasts[..i] && toasts[..i + 1][i] == toast;
      i := i + 1;
    }
    assert toasts[..i] == toasts;
    groups := seq(|order|, j requires 0 <= j < |order| => Group(order[j], buckets[order[j]]));
  }

  // ---------------------------------------------------------------------------
  // Properties of the grouping

  /** A position gets a stack exactly when some toast is at that position. */
  lemma {:induction false} PositionsOccur(ts: seq<Toast>, p: ToastPosition)
    ensures p in Positions(ts) <==> exists a :: 0 <= a < |ts| && PositionOf(ts[a]) == p
    decreases |ts|
  {
    if ts != [] {
      var init := ts[..|ts| - 1];
      PositionsOccur(init, p);
      if p in Positions(ts) && p !in Positions(init) {
        assert PositionOf(ts[|ts| - 1]) == p;
      }
      if exists a :: 0 <= a < |ts| && PositionOf(ts[a]) == p {
        var a :| 0 <= a < |ts| && PositionOf(ts[a]) == p;
        if a < |ts| - 1 {
          assert init[a] == ts[a];
        }
      }
      if exists a :: 0 <= a < |init| && PositionOf(init[a]) == p {
        var a :| 0 <= a < |init| && PositionOf(init[a]) == p;
        assert ts[a] == init[a];
      }
    }
  }

  /** No position gets two stacks. */
  lemma {:induction false} PositionsDistinct(ts: seq<Toast>)
    ensures forall i, j :: 0 <= i < j < |Positions(ts)| ==> Positions(ts)[i] != Positions(ts)[j]
    decreases |ts|
  {
    if ts != [] {
      PositionsDistinct(ts[..|ts| - 1]);
    }
  }

  /** A toast is in the stack of `p` exactly when it is in the list at position `p`. */
  lemma {:induction false} BucketMembers(ts: seq<Toast>, p: ToastPosition, t: Toast)
    ensures t in Bucket(ts, p) <==> t in ts && PositionOf(t) == p
    decreases |ts|
  {
    if ts != [] {
      var init := ts[..|ts| - 1];
      BucketMembers(init, p, t);
      assert ts == init + [ts[|ts| - 1]];
    }
  }

  /** Grouping keeps list order: the stack of `a + b` is the stack of `a` followed by that of `b`. */
  lemma {:induction false} BucketDistributes(a: seq<Toast>, b: seq<Toast>, p: ToastPosition)
    ensures Bucket(a + b, p) == Bucket(a, p) + Bucket(b, p)
    decreases |b|
  {
    if b == [] {
      assert a + b == a;
    } else {
      var init := b[..|b| - 1];
      assert (a + b)[..|a + b| - 1] == a + init;
      BucketDistributes(a, init, p);
    }
  }

  /** A position that no toast has gets an empty bucket. */
  lemma {:induction false} BucketOfAbsent(ts: seq<Toast>, p: ToastPosition)
    requires p !in Positions(ts)
    ensures Bucket(ts, p) == []
    decreases |ts|
  {
    if ts != [] {
      BucketOfAbsent(ts[..|ts| - 1], p);
    }
  }

  /** Every stack the container renders is non-empty. */
  lemma {:induction false} GroupsNonEmpty(ts: seq<Toast>)
    ensures forall g :: g in PositionGroups(ts) ==> |g.toasts| > 0
  {
    forall g | g in PositionGroups(ts)
      ensures |g.toasts| > 0
    {
      var p := g.position;
      assert p in Positions(ts);
      PositionsOccur(ts, p);
      var a :| 0 <= a < |ts| && PositionOf(ts[a]) == p;
      BucketMembers(ts, p, ts[a]);
    }
  }

  /** The toasts of the stacks at positions `ps`, stack after stack. */
  function Collected(ts: seq<Toast>, ps: seq<ToastPosition>): seq<Toast>
    decreases |ps|
  {
    if ps == [] then [] else Collected(ts, ps[..|ps| - 1]) + Bucket(ts, ps[|ps| - 1])
  }

  /** Adding one toast at the end adds it once to the stacks it belongs to. */
  lemma {:induction false} CollectedSnoc(ts: seq<Toast>, x: Toast, ps: seq<ToastPosition>)
    requires forall i, j :: 0 <= i < j < |ps| ==> ps[i] != ps[j]
    ensures multiset(Collected(ts + [x], ps))
              == multiset(Collected(ts, ps)) + (if PositionOf(x) in ps then multiset{x} else multiset{})
    decreases |ps|
  {
    if ps != [] {
      var init := ps[..|ps| - 1];
      var last := ps[|ps| - 1];
      CollectedSnoc(ts, x, init);
      assert (ts + [x])[..|ts + [x]| - 1] == ts;
      assert PositionOf(x) in ps <==> PositionOf(x) in init || PositionOf(x) == last;
      assert PositionOf(x) == last ==> PositionOf(x) !in init;
    }
  }

  /** Collecting over a list with one more position appends that position's stack. */
  lemma {:induction false} CollectedPositionsSnoc(ts: seq<Toast>)
    requires ts != []
    ensures var init := ts[..|ts| - 1];
            multiset(Collected(ts, Positions(ts)))
              == multiset(Collected(ts, Positions(init)))
                 + (if PositionOf(ts[|ts| - 1]) in Positions(init) then multiset{}
                    else multiset(Bucket(ts, PositionOf(ts[|ts| - 1]))))
  {
  }

  /** Each toast lands in exactly one stack: the stacks hold, between them, every
      toast of the list as often as the list does and nothing else. */
  lemma {:induction false} GroupingIsPartition(ts: seq<Toast>)
    ensures multiset(Flatten(PositionGroups(ts))) == multiset(ts)
    ensures |Flatten(PositionGroups(ts))| == |ts|
  {
    FlattenIsCollected(ts, Positions(ts));
    CollectedIsPartition(ts);
    assert |multiset(Flatten(PositionGroups(ts)))| == |multiset(ts)|;
  }

  lemma {:induction false} FlattenIsCollected(ts: seq<Toast>, ps: seq<ToastPosition>)
    ensures Flatten(seq(|ps|, i requires 0 <= i < |ps| => Group(ps[i], Bucket(ts, ps[i]))))
              == Collected(ts, ps)
    decreases |ps|
  {
    var gs := seq(|ps|, i requires 0 <= i < |ps| => Group(ps[i], Bucket(ts, ps[i])));
    if ps != [] {
      var init := ps[..|ps| - 1];
      FlattenIsCollected(ts, init);
      assert gs[..|gs| - 1] == seq(|init|, i requires 0 <= i < |init| => Group(init[i], Bucket(ts, init[i])));
    }
  }

  lemma {:induction false} CollectedIsPartition(ts: seq<Toast>)
    ensures multiset(Collected(ts, Positions(ts))) == multiset(ts)
    decreases |ts|
  {
    if ts != [] {
      var init := ts[..|ts| - 1];
      var x := ts[|ts| - 1];
      assert ts == init + [x];
      CollectedIsPartition(init);
      PositionsDistinct(init);
      CollectedSnoc(init, x, Positions(init));
      CollectedPositionsSnoc(ts);
      var p := PositionOf(x);
      if p !in Positions(init) {
        BucketOfAbsent(init, p);
        assert Bucket(ts, p) == [x];
      }
    }
  }

  /** Some toast at position `p` comes before every toast at position `q`. */
  predicate OpensBefore(ts: seq<Toast>, p: ToastPosition, q: ToastPosition) {
    exists a :: 0 <= a < |ts| && PositionOf(ts[a]) == p &&
      forall b :: 0 <= b <= a ==> PositionOf(ts[b]) != q
  }

  /** Stacks come in order of first occurrence: of two stacks, the one rendered
      first is the one whose position the list reaches first. */
  lemma {:induction false} GroupsInFirstOccurrenceOrder(ts: seq<Toast>)
    ensures forall i, j :: 0 <= i < j < |Positions(ts)| ==>
              OpensBefore(ts, Positions(ts)[i], Positions(ts)[j])
    decreases |ts|
  {
    if ts != [] {
      var init := ts[..|ts| - 1];
      var ps := Positions(init);
      GroupsInFirstOccurrenceOrder(init);
      forall i, j | 0 <= i < j < |Positions(ts)|
        ensures OpensBefore(ts, Positions(ts)[i], Positions(ts)[j])
      {
        assert Positions(ts)[..|ps|] == ps;
        assert Positions(ts)[i] == ps[i];
        var q := Positions(ts)[j];
        var a;
        if j < |ps| {
          assert q == ps[j];
          assert OpensBefore(init, ps[i], q);
          a :| 0 <= a < |init| && PositionOf(init[a]) == ps[i] &&
               forall b :: 0 <= b <= a ==> PositionOf(init[b]) != q;
        } else {
          // the second stack is the one the last toast opened
          PositionsOccur(init, ps[i]);
          PositionsOccur(init, q);
          a :| 0 <= a < |init| && PositionOf(init[a]) == ps[i];
        }
        assert forall b :: 0 <= b <= a ==> ts[b] == init[b] && PositionOf(init[b]) != q;
      }
    }
  }

  // ---------------------------------------------------------------------------
  // Close wiring

  /** The id a rendered toast's `onClose` passes to the provider's `onRemove`. */
  function CloseRequest(t: Toast): string {
    t.id
  }

  /** Closing a rendered toast removes its own record: afterwards no record with
      its id is left, and the list is shorter. */
  lemma CloseRemovesOwnRecord(ts: seq<Toast>, g: Group, t: Toast)
    requires g in PositionGroups(ts) && t in g.toasts
    ensures t in ts
    ensures forall u :: u in ToastContext.Removed(ts, CloseRequest(t)) ==> u.id != t.id
    ensures |ToastContext.Removed(ts, CloseRequest(t))| < |ts|
  {
    BucketMembers(ts, g.position, t);
    RemovedShrinks(ts, t);
  }

  lemma {:induction false} RemovedShrinks(ts: seq<Toast>, t: Toast)
    requires t in ts
    ensures |ToastContext.Removed(ts, t.id)| < |ts|
    decreases |ts|
  {
    if ts[0] != t {
      RemovedShrinks(ts[1..], t);
    }
  }
}
