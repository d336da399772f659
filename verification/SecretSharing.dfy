/** When an object of the secret store reads the last secrets although others write too. */
module SecretSharing {
  import opened Prelude
  import opened SecretCodec
  import opened SecretStore
  import opened SecretLaws

  /** The secrets that a read should give: those written last by anybody. */
  function Latest(m: Model): Reply {
    if m.current.Some? then Secrets(m.current.value) else Failed(NotInitialized)
  }

  /** The same objects read, write and create the store in the same order; what they write may differ. */
  predicate SamePattern(a: seq<Act>, b: seq<Act>) {
    && |a| == |b|
    && forall k :: 0 <= k < |a| ==> a[k].i == b[k].i && Writes(a[k].op) == Writes(b[k].op) && a[k].op.Init? == b[k].op.Init?
  }

  /** The store exists before act `p`, one of `n` objects having created it. */
  predicate Exists(created: bool, n: nat, acts: seq<Act>, p: nat)
    requires p <= |acts|
  {
    created || exists z :: 0 <= z < p && acts[z].op.Init? && acts[z].i < n
  }

  /** Act `p` loads the store into object `i`, or finds it loaded. */
  predicate Touches(created: bool, n: nat, acts: seq<Act>, i: nat, p: nat)
    requires p < |acts|
  {
    acts[p].i == i && !acts[p].op.Init? && Exists(created, n, acts, p)
  }

  predicate WrittenByOther(n: nat, act: Act, i: nat) {
    act.i != i && act.i < n && Writes(act.op)
  }

  /** Object `i` has loaded the store, another one has written since, and `i` has not. */
  ghost predicate Lags(created: bool, n: nat, acts: seq<Act>, i: nat) {
    exists p, q ::
      && 0 <= p < q < |acts| && Touches(created, n, acts, i, p) && WrittenByOther(n, acts[q], i)
      && NotWrittenAfter(acts, i, q)
  }

  predicate NotWrittenAfter(acts: seq<Act>, i: nat, q: nat)
    requires q < |acts|
  {
    forall r :: q < r < |acts| ==> !(acts[r].i == i && Writes(acts[r].op))
  }

  ghost predicate AllNew(m: Model) {
    forall i :: 0 <= i < |m.views| ==> m.views[i] == None
  }

  // ----- an object that does not lag

  lemma {:induction false} CreatedExactly(m: Model, acts: seq<Act>)
    requires AllNew(m)
    ensures var now := ModelRun(m, acts);
      |now.views| == |m.views| && (now.current.Some? <==> Exists(m.current.Some?, |m.views|, acts, |acts|))
    ensures forall i :: 0 <= i < |m.views| && ModelRun(m, acts).views[i].Some? ==> ModelRun(m, acts).current.Some?
  {
    if acts != [] {
      var front, last := acts[..|acts| - 1], acts[|acts| - 1];
      CreatedExactly(m, front);
      ExistsMore(m.current.Some?, |m.views|, acts);
    }
  }

  lemma ExistsMore(created: bool, n: nat, acts: seq<Act>)
    requires acts != []
    ensures var front, last := acts[..|acts| - 1], acts[|acts| - 1];
      && Exists(created, n, acts, |front|) == Exists(created, n, front, |front|)
      && (Exists(created, n, acts, |acts|) <==> Exists(created, n, front, |front|) || (last.op.Init? && last.i < n))
  {
    var front, last := acts[..|acts| - 1], acts[|acts| - 1];
    if z :| 0 <= z < |front| && front[z].op.Init? && front[z].i < n {
      assert acts[z].op.Init? && acts[z].i < n;
    }
    if z :| 0 <= z < |acts| && acts[z].op.Init? && acts[z].i < n && z < |front| {
      assert front[z].op.Init? && front[z].i < n;
    }
    if last.op.Init? && last.i < n {
      assert acts[|front|].op.Init? && acts[|front|].i < n;
    }
  }

  /** An object has a copy exactly when an act has loaded it. */
  lemma {:induction false} LoadedExactly(m: Model, acts: seq<Act>, i: nat)
    requires AllNew(m) && i < |m.views|
    ensures |ModelRun(m, acts).views| == |m.views|
    ensures ModelRun(m, acts).views[i].Some? <==>
      exists p :: 0 <= p < |acts| && Touches(m.current.Some?, |m.views|, acts, i, p)
  {
    CreatedExactly(m, acts);
    if acts != [] {
      var front, last := acts[..|acts| - 1], acts[|acts| - 1];
      LoadedExactly(m, front, i);
      CreatedExactly(m, front);
      TouchesFront(m.current.Some?, |m.views|, acts, i);
      ExistsMore(m.current.Some?, |m.views|, acts);
      var created, n := m.current.Some?, |m.views|;
      assert Touches(created, n, acts, i, |front|) <==> last.i == i && !last.op.Init? && Exists(created, n, front, |front|);
      if p :| 0 <= p < |front| && Touches(created, n, front, i, p) {
        assert Touches(created, n, acts, i, p);
      }
      if p :| 0 <= p < |acts| && Touches(created, n, acts, i, p) && p < |front| {
        assert Touches(created, n, front, i, p);
      }
    }
  }

  lemma TouchesFront(created: bool, n: nat, acts: seq<Act>, i: nat)
    requires acts != []
    ensures forall p :: 0 <= p < |acts| - 1 ==>
      (Touches(created, n, acts, i, p) <==> Touches(created, n, acts[..|acts| - 1], i, p))
  {
    var front := acts[..|acts| - 1];
    forall p | 0 <= p < |front|
      ensures Touches(created, n, acts, i, p) <==> Touches(created, n, front, i, p)
    {
      assert forall z :: 0 <= z < p ==> acts[z] == front[z];
    }
  }

  /** Lagging goes on until the object writes. */
  lemma LagsOn(created: bool, n: nat, acts: seq<Act>, i: nat)
    requires acts != [] && Lags(created, n, acts[..|acts| - 1], i)
    requires !(acts[|acts| - 1].i == i && Writes(acts[|acts| - 1].op))
    ensures Lags(created, n, acts, i)
  {
    var front := acts[..|acts| - 1];
    TouchesFront(created, n, acts, i);
    var p, q :| 0 <= p < q < |front| && Touches(created, n, front, i, p) && WrittenByOther(n, front[q], i)
      && NotWrittenAfter(front, i, q);
    assert acts[q] == front[q];
    assert Touches(created, n, acts, i, p) && WrittenByOther(n, acts[q], i) && NotWrittenAfter(acts, i, q);
  }

  lemma {:induction false} UpToDate(m: Model, acts: seq<Act>, i: nat)
    requires AllNew(m) && i < |m.views| && !Lags(m.current.Some?, |m.views|, acts, i)
    ensures var now := ModelRun(m, acts); |now.views| == |m.views| && (now.views[i] == None || now.views[i] == now.current)
  {
    var created, n := m.current.Some?, |m.views|;
    CreatedExactly(m, acts);
    if acts != [] {
      var front, last := acts[..|acts| - 1], acts[|acts| - 1];
      var before := ModelRun(m, front);
      CreatedExactly(m, front);
      LoadedExactly(m, front, i);
      if last.i == i && Writes(last.op) {
      } else {
        if Lags(created, n, front, i) {
          LagsOn(created, n, acts, i);
        }
        UpToDate(m, front, i);
        if before.views[i].Some? && WrittenByOther(n, last, i) {
          TouchesFront(created, n, acts, i);
          var p :| 0 <= p < |front| && Touches(created, n, front, i, p);
          assert Touches(created, n, acts, i, p) && NotWrittenAfter(acts, i, |front|);
        }
      }
    }
  }

  // ----- one that does

  /** Secrets that tell which act wrote them. */
  function Mark(k: nat): Json {
    Leaf(seq(k, i => 'x'))
  }

  /** The same pattern, each write storing its mark. */
  function Marked(acts: seq<Act>, base: nat): (r: seq<Act>)
    ensures |r| == |acts| && forall k :: 0 <= k < |r| ==>
      r[k] == Act(acts[k].i, if Writes(acts[k].op) then Set(Mark(base + k)) else acts[k].op)
  {
    seq(|acts|, k requires 0 <= k < |acts| =>
      Act(acts[k].i, if Writes(acts[k].op) then Set(Mark(base + k)) else acts[k].op))
  }

  /** Not a mark of `bound` or later. */
  predicate Below(v: Option<Json>, bound: nat) {
    v.Some? && v.value.Leaf? ==> |v.value.text| < bound
  }

  ghost predicate AllBelow(m: Model, bound: nat) {
    Below(m.current, bound) && forall i :: 0 <= i < |m.views| ==> Below(m.views[i], bound)
  }

  lemma {:induction false} MarksBelow(m: Model, acts: seq<Act>, base: nat)
    requires AllBelow(m, base)
    ensures AllBelow(ModelRun(m, Marked(acts, base)), base + |acts|)
  {
    if acts != [] {
      var front := acts[..|acts| - 1];
      MarksBelow(m, front, base);
      assert Marked(acts, base)[..|front|] == Marked(front, base);
    }
  }

  /** The current secrets carry a mark that the copy is older than. */
  ghost predicate Differs(m: Model, i: nat, bound: nat) {
    && i < |m.views| && m.views[i].Some? && Below(m.views[i], bound)
    && m.current.Some? && m.current.value.Leaf? && |m.current.value.text| >= bound
  }

  lemma DiffersOn(m: Model, act: Act, i: nat, bound: nat, k: nat)
    requires Differs(m, i, bound) && bound <= k && !(act.i == i && Writes(act.op))
    requires Writes(act.op) ==> act.op == Set(Mark(k))
    ensures Differs(ModelDo(m, act), i, bound)
  {
  }

  /** The write of another object, after a load. */
  lemma MarksStart(m: Model, front: seq<Act>, last: Act, base: nat, i: nat, p: nat)
    requires AllNew(m) && AllBelow(m, base) && i < |m.views| && p < |front|
    requires Touches(m.current.Some?, |m.views|, front, i, p) && WrittenByOther(|m.views|, last, i)
    ensures Differs(ModelDo(ModelRun(m, Marked(front, base)), Act(last.i, Set(Mark(base + |front|)))), i, base + |front|)
  {
    MarksBelow(m, front, base);
    TouchesMarked(m.current.Some?, |m.views|, front, base, i, p);
    LoadedExactly(m, Marked(front, base), i);
    CreatedExactly(m, Marked(front, base));
    hide Touches, Exists, ModelRun, Marked;
  }

  /** From a write of another object on, the current secrets carry a later mark than the copy. */
  lemma {:induction false} MarksDiffer(m: Model, acts: seq<Act>, base: nat, i: nat, p: nat, q: nat)
    requires AllNew(m) && AllBelow(m, base) && i < |m.views| && p < q < |acts|
    requires Touches(m.current.Some?, |m.views|, acts, i, p) && WrittenByOther(|m.views|, acts[q], i)
    requires NotWrittenAfter(acts, i, q)
    ensures Differs(ModelRun(m, Marked(acts, base)), i, base + q)
    decreases |acts|
  {
    hide Differs, ModelDo, Touches, AllNew, AllBelow;
    var front, last := acts[..|acts| - 1], acts[|acts| - 1];
    assert Marked(acts, base)[..|front|] == Marked(front, base);
    TouchesFront(m.current.Some?, |m.views|, acts, i);
    if q < |front| {
      assert acts[q] == front[q] && NotWrittenAfter(front, i, q) by {
        assert forall r :: q < r < |front| ==> acts[r] == front[r];
      }
      MarksDiffer(m, front, base, i, p, q);
      DiffersOn(ModelRun(m, Marked(front, base)), Marked(acts, base)[|front|], i, base + q, base + |front|);
    } else {
      MarksStart(m, front, last, base, i, p);
    }
  }

  lemma TouchesMarked(created: bool, n: nat, acts: seq<Act>, base: nat, i: nat, p: nat)
    requires p < |acts| && Touches(created, n, acts, i, p)
    ensures Touches(created, n, Marked(acts, base), i, p)
  {
    if z :| 0 <= z < p && acts[z].op.Init? && acts[z].i < n {
      assert Marked(acts, base)[z].op.Init?;
    }
  }

  lemma MarkedSame(acts: seq<Act>, base: nat)
    ensures SamePattern(acts, Marked(acts, base)) && (AllLegal(acts) ==> AllLegal(Marked(acts, base)))
  {
  }

  lemma LagsSame(created: bool, n: nat, a: seq<Act>, b: seq<Act>, i: nat)
    requires SamePattern(a, b) && Lags(created, n, b, i)
    ensures Lags(created, n, a, i)
  {
    var p, q :| 0 <= p < q < |b| && Touches(created, n, b, i, p) && WrittenByOther(n, b[q], i) && NotWrittenAfter(b, i, q);
    if z :| 0 <= z < p && b[z].op.Init? && b[z].i < n {
      assert a[z].op.Init? && a[z].i < n;
    }
    assert Touches(created, n, a, i, p) && WrittenByOther(n, a[q], i) && NotWrittenAfter(a, i, q);
  }

  function TextOf(v: Option<Json>): nat {
    if v.Some? && v.value.Leaf? then |v.value.text| + 1 else 0
  }

  // ----- on the store

  /** After the acts, object `i` is answered with the last secrets written. */
  ghost predicate ReadsLatest(codec: Codec, w: World, m: Model, acts: seq<Act>, i: nat) {
    Told(codec, Run(codec, w, acts), Act(i, Get)) == Latest(ModelRun(m, acts))
  }

  /**
   Of new objects on one file, whatever is written in the same pattern of reads and writes,
   object `i` reads the last secrets, exactly when none but itself has written since it
   loaded the store or last wrote.
  */
  lemma ReadsLatestExactly(codec: Codec, w: World, m: Model, acts: seq<Act>, i: nat)
    requires Lawful(codec) && Shows(codec, w, m) && AllNew(m) && AllLegal(acts) && i < |m.views|
    ensures !Lags(m.current.Some?, |m.views|, acts, i) <==>
      forall other :: SamePattern(acts, other) && AllLegal(other) ==> ReadsLatest(codec, w, m, other, i)
  {
    hide Lawful, Shows, Told, Run, Touches, NotWrittenAfter, WrittenByOther, SamePattern, ModelRun, Marked;
    var created, n := m.current.Some?, |m.views|;
    if Lags(created, n, acts, i) {
      var p, q :| 0 <= p < q < |acts| && Touches(created, n, acts, i, p) && WrittenByOther(n, acts[q], i)
        && NotWrittenAfter(acts, i, q);
      var base := TextOf(m.current);
      var other := Marked(acts, base);
      MarksDiffer(m, acts, base, i, p, q);
      MarkedSame(acts, base);
      assert SamePattern(acts, other) && AllLegal(other);
      StoreIsVariable(codec, w, m, other, Act(i, Get));
      assert !ReadsLatest(codec, w, m, other, i);
    } else {
      forall other | SamePattern(acts, other) && AllLegal(other)
        ensures ReadsLatest(codec, w, m, other, i)
      {
        if Lags(created, n, other, i) {
          LagsSame(created, n, acts, other, i);
        }
        UpToDate(m, other, i);
        CreatedExactly(m, other);
        StoreIsVariable(codec, w, m, other, Act(i, Get));
      }
    }
  }
}
