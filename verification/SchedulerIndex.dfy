/**
  The index of ready networks against its definition from scratch: every step keeps it, a recount restores it.
*/
module SchedulerIndex {
  import opened Networks
  import opened SchedulerState

  ghost predicate Exact(s: State)
  {
    s.readynet == Ready(s)
  }

  ghost predicate ExactAt(s: State, q: nat, h: Hash)
  {
    (q, h) in s.readynet <==> HasTarget(s, q, h) && !Hot(s, h)
  }

  lemma ExactMeans(s: State)
    ensures Exact(s) <==> forall q: nat, h :: ExactAt(s, q, h)
  {
    forall q: nat, h
      ensures (q, h) in Ready(s) <==> HasTarget(s, q, h) && !Hot(s, h)
    {
      ReadyMeans(s, q, h);
    }
    if forall q: nat, h :: ExactAt(s, q, h) {
      forall r
        ensures r in s.readynet <==> r in Ready(s)
      {
        assert ExactAt(s, r.0, r.1);
        ReadyMeans(s, r.0, r.1);
        assert r == (r.0, r.1);
      }
    }
  }

  // ---------------------------------------------------------------------------------------------------------
  // Primitive steps
  // ---------------------------------------------------------------------------------------------------------

  lemma PopTargetExact(s: State, t: nat)
    requires t in s.targets && Exact(s)
    ensures Exact(PopTarget(s, t))
  {
    hide Ready;
    var p := PopTarget(s, t);
    ExactMeans(s);
    forall q: nat, h
      ensures ExactAt(p, q, h)
    {
      assert ExactAt(s, q, h) && Hot(p, h) == Hot(s, h);
      if HasTarget(s, q, h) && (q, h) != (s.targets[t].queue, s.targets[t].hash) {
        var u :| u in s.targets && s.targets[u].queue == q && s.targets[u].hash == h;
        assert u in p.targets && p.targets[u] == s.targets[u];
      }
    }
    ExactMeans(p);
  }

  lemma PutExact(s: State, h: Hash)
    requires Exact(s)
    ensures Exact(HeatmapPut(s, h))
  {
    hide Ready;
    var p := HeatmapPut(s, h);
    ExactMeans(s);
    forall q: nat, k
      ensures ExactAt(p, q, k)
    {
      assert ExactAt(s, q, k);
      assert HasTarget(p, q, k) <==> HasTarget(s, q, k);
    }
    ExactMeans(p);
  }

  lemma HeatAfterPop(s: State, h: Hash, gc: bool, k: Hash)
    requires Heat(s, h) >= 1
    ensures Heat(HeatmapPop(s, h, gc), k) == if k == h then Heat(s, h) - 1 else Heat(s, k)
  {
  }

  /** With some heat and an exact index, a row of the count exists, and no row of the index is inserted twice. */
  lemma PopExact(s: State, h: Hash, gc: bool)
    requires Exact(s) && Heat(s, h) >= 1
    ensures h in s.heatmap && !Collides(s, h)
    ensures Exact(HeatmapPop(s, h, gc))
  {
    hide Ready;
    var p := HeatmapPop(s, h, gc);
    ExactMeans(s);
    forall q: nat, k
      ensures ExactAt(p, q, k) && (q, k) !in Awakened(s, h) * s.readynet
    {
      assert ExactAt(s, q, k);
      HeatAfterPop(s, h, gc, k);
      assert HasTarget(p, q, k) <==> HasTarget(s, q, k);
      AwakenedMeans(s, h, q, k);
    }
    assert forall r :: r in Awakened(s, h) * s.readynet ==> r == (r.0, r.1);
    ExactMeans(p);
  }

  lemma AwakenedMeans(s: State, h: Hash, q: nat, k: Hash)
    requires Heat(s, h) >= 1
    ensures (q, k) in Awakened(s, h) <==> k == h && s.level > 0 && Heat(s, h) == s.level && HasTarget(s, q, h)
  {
    if k == h && HasTarget(s, q, h) {
      var t :| t in s.targets && s.targets[t].queue == q && s.targets[t].hash == h;
      assert (s.targets[t].queue, h) in Waiting(s.targets, h);
    }
  }

  lemma EnqueuedTargets(s: State, q: nat, raw: seq<string>, r: nat, h: Hash)
    requires forall t :: t in s.targets ==> t < s.nextTarget
    ensures HasTarget(Enqueue(s, q, raw), r, h) <==> HasTarget(s, r, h) || (r == q && h in Hashes(s.parse, Lines(raw)))
  {
    hide Lines, HashOf, NewRows, Hashes;
    var lines := Lines(raw);
    var hashes := Hashes(s.parse, lines);
    var rows := NewRows(s.parse, q, lines, s.nextTarget);
    var p := Enqueue(s, q, raw);
    assert p.targets == s.targets + rows;
    if HasTarget(s, r, h) {
      var t :| t in s.targets && s.targets[t].queue == r && s.targets[t].hash == h;
      assert t in p.targets && p.targets[t] == s.targets[t];
    }
    if r == q && h in hashes {
      var i :| 0 <= i < |hashes| && hashes[i] == h;
      assert s.nextTarget + i in rows;
      assert p.targets[s.nextTarget + i] == rows[s.nextTarget + i];
    }
    if HasTarget(p, r, h) {
      var t :| t in p.targets && p.targets[t].queue == r && p.targets[t].hash == h;
      if t in rows {
        assert hashes[t - s.nextTarget] == h;
      } else {
        assert t in s.targets;
      }
    }
  }

  lemma EnqueueExact(s: State, q: nat, raw: seq<string>)
    requires Exact(s) && (forall t :: t in s.targets ==> t < s.nextTarget)
    ensures Exact(Enqueue(s, q, raw))
  {
    hide Ready, Lines, HasTarget, HashOf, Hashes;
    var p := Enqueue(s, q, raw);
    ExactMeans(s);
    forall r: nat, h
      ensures ExactAt(p, r, h)
    {
      assert ExactAt(s, r, h);
      assert Hot(p, h) == Hot(s, h);
      EnqueuedTargets(s, q, raw, r, h);
    }
    ExactMeans(p);
  }

  lemma FlushExact(s: State, q: nat)
    requires Exact(s)
    ensures Exact(Flush(s, q))
  {
    hide Ready, QueueBags;
    var p := Flush(s, q);
    ExactMeans(s);
    forall r: nat, h
      ensures ExactAt(p, r, h)
    {
      assert ExactAt(s, r, h);
      if HasTarget(s, r, h) && r != q {
        var t :| t in s.targets && s.targets[t].queue == r && s.targets[t].hash == h;
        assert t in p.targets && p.targets[t] == s.targets[t];
      }
    }
    ExactMeans(p);
  }

  // ---------------------------------------------------------------------------------------------------------
  // Recounting
  // ---------------------------------------------------------------------------------------------------------

  /** Every row of the index that is not hot has a target. */
  ghost predicate Backed(s: State)
  {
    forall q: nat, h :: (q, h) in s.readynet && !Hot(s, h) ==> HasTarget(s, q, h)
  }

  lemma RecountMeans(s: State, q: nat, h: Hash)
    ensures (q, h) in Recount(s).readynet <==> !Hot(s, h) && ((q, h) in s.readynet || HasTarget(s, q, h))
  {
    if HasTarget(s, q, h) && !Hot(s, h) {
      var t :| t in s.targets && s.targets[t].queue == q && s.targets[t].hash == h;
      assert (s.targets[t].queue, s.targets[t].hash) in Recount(s).readynet;
    }
  }

  /** A recount makes the index exact if and only if every row that is not hot has a target. */
  lemma RecountExact(s: State)
    ensures Exact(Recount(s)) <==> Backed(s)
  {
    hide Ready;
    var p := Recount(s);
    forall q: nat, h
      ensures ExactAt(p, q, h) <==> ((q, h) in s.readynet && !Hot(s, h) ==> HasTarget(s, q, h))
    {
      RecountMeans(s, q, h);
      assert HasTarget(p, q, h) <==> HasTarget(s, q, h);
    }
    ExactMeans(p);
  }

  /** On an exact index a recount changes nothing. */
  lemma RecountIdle(s: State)
    requires Exact(s)
    ensures Recount(s) == s
  {
    hide Ready;
    ExactMeans(s);
    forall r
      ensures r in Recount(s).readynet <==> r in s.readynet
    {
      assert ExactAt(s, r.0, r.1);
      RecountMeans(s, r.0, r.1);
      assert r == (r.0, r.1);
    }
    assert Recount(s).readynet == s.readynet;
  }

  /** After any change of the level, a recount of an index that was exact before is exact for the new level. */
  lemma RelevelExact(s: State, level: nat)
    requires Exact(s)
    ensures Exact(Relevel(s, level))
  {
    hide Ready;
    var p := s.(level := level);
    ExactMeans(s);
    forall q: nat, h | (q, h) in p.readynet
      ensures HasTarget(p, q, h)
    {
      assert ExactAt(s, q, h);
      assert HasTarget(p, q, h) <==> HasTarget(s, q, h);
    }
    RecountExact(p);
  }

  /**
    Without the recount, the next release of a network breaks on an existing row exactly when its heat is the new
    level, it was not hot at the old one, and some queue waits for it.
  */
  lemma CollisionWithoutRecount(s: State, level: nat, h: Hash)
    requires Exact(s) && Heat(s, h) >= 1
    ensures Collides(s.(level := level), h)
            <==> level == Heat(s, h) && !Hot(s, h) && exists q: nat :: HasTarget(s, q, h)
  {
    hide Ready;
    var p := s.(level := level);
    ExactMeans(s);
    forall q: nat, k
      ensures (q, k) in Awakened(p, h) * p.readynet
              <==> k == h && level == Heat(s, h) && !Hot(s, h) && HasTarget(s, q, h)
    {
      assert ExactAt(s, q, k);
      AwakenedMeans(p, h, q, k);
      assert HasTarget(p, q, h) <==> HasTarget(s, q, h);
    }
    if Collides(p, h) {
      var r :| r in Awakened(p, h) * p.readynet;
      assert (r.0, r.1) in Awakened(p, h) * p.readynet;
    }
    if q: nat :| level == Heat(s, h) && !Hot(s, h) && HasTarget(s, q, h) {
      assert (q, h) in Awakened(p, h) * p.readynet;
    }
  }
}
