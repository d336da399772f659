/**
 Any number of store objects on one file, in any order of operations, behave like a
 variable of which each object keeps a copy from its first operation on.
*/
module SecretLaws {
  import opened Prelude
  import opened SecretCodec
  import opened SecretStore

  datatype World = World(file: Option<Bytes>, caches: seq<Cache>)
  datatype Act = Act(i: nat, op: Op)

  function Do(codec: Codec, w: World, act: Act): World {
    if act.i >= |w.caches| then w
    else
      var e := Step(codec, w.file, w.caches[act.i], act.op);
      World(e.file, w.caches[act.i := e.cache])
  }

  function Told(codec: Codec, w: World, act: Act): Reply {
    if act.i >= |w.caches| then Stored else Step(codec, w.file, w.caches[act.i], act.op).reply
  }

  function Run(codec: Codec, w: World, acts: seq<Act>): World {
    if acts == [] then w else Do(codec, Run(codec, w, acts[..|acts| - 1]), acts[|acts| - 1])
  }

  // ----- the simple form

  /** The secrets, and those each object has seen last. */
  datatype Model = Model(current: Option<Json>, views: seq<Option<Json>>)

  function View(m: Model, i: nat): Option<Json>
    requires i < |m.views|
  {
    if m.views[i].Some? then m.views[i] else m.current
  }

  /** The secrets after an operation that found `v`. */
  function Changed(v: Json, op: Op): Json {
    match op
    case Set(secrets) => secrets
    case SetKey(path, x) => Put(v, path, x)
    case Unset(path) => Remove(v, path)
    case _ => v
  }

  predicate Writes(op: Op) {
    op.Set? || op.SetKey? || op.Unset?
  }

  function ModelDo(m: Model, act: Act): Model {
    if act.i >= |m.views| then m
    else if act.op.Init? then m.(current := if m.current.None? then Some(EMPTY) else m.current)
    else
      match View(m, act.i)
      case None => m
      case Some(v) =>
        var now := Some(Changed(v, act.op));
        Model(if Writes(act.op) then now else m.current, m.views[act.i := now])
  }

  function ModelTold(m: Model, act: Act): Reply {
    if act.i >= |m.views| then Stored
    else if act.op.Init? then if m.current.None? then Stored else Failed(AlreadyCreated)
    else
      match View(m, act.i)
      case None => Failed(NotInitialized)
      case Some(v) =>
        match act.op
        case Get => Secrets(v)
        case GetKey(path) => Found(Lookup(v, path))
        case _ => Stored
  }

  function ModelRun(m: Model, acts: seq<Act>): Model {
    if acts == [] then m else ModelDo(ModelRun(m, acts[..|acts| - 1]), acts[|acts| - 1])
  }

  // ----- the file and the caches are the simple form, encrypted

  ghost predicate CacheShows(codec: Codec, file: Option<Bytes>, c: Cache, view: Option<Json>) {
    match view
    case None => c == Cache(None, None)
    case Some(v) =>
      && file.Some? && c.iv == Some(Head(file.value)) && c.raw.Some?
      && Decrypt(codec, c.raw.value, c.iv.value) == Ok(v)
  }

  ghost predicate FileShows(codec: Codec, file: Option<Bytes>, current: Option<Json>) {
    match current
    case None => file == None
    case Some(v) => file.Some? && Decrypt(codec, Tail(file.value), Head(file.value)) == Ok(v)
  }

  ghost predicate Shows(codec: Codec, w: World, m: Model) {
    && |w.caches| == |m.views| && FileShows(codec, w.file, m.current)
    && forall i :: 0 <= i < |w.caches| ==> CacheShows(codec, w.file, w.caches[i], m.views[i])
  }

  /** The vector of a new store has sixteen bytes. */
  predicate Legal(op: Op) {
    op.Init? ==> |op.random| == 16
  }

  predicate AllLegal(acts: seq<Act>) {
    forall k :: 0 <= k < |acts| ==> Legal(acts[k].op)
  }

  lemma SaveShows(codec: Codec, file: Option<Bytes>, c: Cache, v: Json)
    requires Lawful(codec) && c.iv.Some? && |c.iv.value| == 16
    ensures var e := Save(codec, file, c, v);
      && e.reply == Stored && e.cache.iv == c.iv && e.file.Some? && Head(e.file.value) == c.iv.value
      && FileShows(codec, e.file, Some(v)) && CacheShows(codec, e.file, e.cache, Some(v))
  {
    CipherRoundTrip(codec, v, c.iv.value);
    var raw := Encrypt(codec, v, c.iv.value).value;
    assert Head(c.iv.value + raw) == c.iv.value && Tail(c.iv.value + raw) == raw;
  }

  /** The effect of one operation on the object that makes it. */
  lemma StepShows(codec: Codec, file: Option<Bytes>, c: Cache, current: Option<Json>, view: Option<Json>, op: Op)
    requires Lawful(codec) && Legal(op)
    requires FileShows(codec, file, current) && CacheShows(codec, file, c, view)
    ensures var e := Step(codec, file, c, op);
      var m := Model(current, [view]);
      var next := ModelDo(m, Act(0, op));
      && FileShows(codec, e.file, next.current) && CacheShows(codec, e.file, e.cache, next.views[0])
      && e.reply == ModelTold(m, Act(0, op))
      && (file.Some? ==> e.file.Some? && Head(e.file.value) == Head(file.value))
  {
    hide Lawful;
    if op.Init? {
      if file.None? {
        assert Head(op.random) == op.random && Tail(op.random) == [];
      }
    } else if Loaded(file, c).Ok? {
      var now := Loaded(file, c).value;
      var seen := View(Model(current, [view]), 0);
      assert Decrypt(codec, now.raw.value, now.iv.value) == Ok(seen.value);
      if Writes(op) {
        SaveShows(codec, file, now, Changed(seen.value, op));
      }
    }
  }

  /** One operation of any object has the effect and the reply of the simple form. */
  lemma DoShows(codec: Codec, w: World, m: Model, act: Act)
    requires Lawful(codec) && Legal(act.op) && Shows(codec, w, m)
    ensures Shows(codec, Do(codec, w, act), ModelDo(m, act)) && Told(codec, w, act) == ModelTold(m, act)
  {
    hide Lawful, Step, FileShows;
    if act.i < |w.caches| {
      StepShows(codec, w.file, w.caches[act.i], m.current, m.views[act.i], act.op);
      var next := ModelDo(m, act);
      var alone := ModelDo(Model(m.current, [m.views[act.i]]), Act(0, act.op));
      assert next == Model(alone.current, m.views[act.i := alone.views[0]]);
    }
  }

  /**
   Refinement: after any operations of any objects, the file and the caches show what the
   simple form says, and the next operation is answered as the simple form answers it.
  */
  lemma {:induction false} StoreIsVariable(codec: Codec, w: World, m: Model, acts: seq<Act>, next: Act)
    requires Lawful(codec) && Shows(codec, w, m) && AllLegal(acts) && Legal(next.op)
    ensures Shows(codec, Run(codec, w, acts), ModelRun(m, acts))
    ensures Told(codec, Run(codec, w, acts), next) == ModelTold(ModelRun(m, acts), next)
  {
    hide Lawful, Shows, Do, ModelDo, Told, ModelTold;
    if acts != [] {
      var front, last := acts[..|acts| - 1], acts[|acts| - 1];
      StoreIsVariable(codec, w, m, front, last);
      DoShows(codec, Run(codec, w, front), ModelRun(m, front), last);
    }
    DoShows(codec, Run(codec, w, acts), ModelRun(m, acts), next);
  }

  // ----- one object that writes, and several

  /** Nobody but object `i` writes secrets. */
  predicate OnlyWriter(acts: seq<Act>, i: nat) {
    forall k :: 0 <= k < |acts| && Writes(acts[k].op) ==> acts[k].i == i
  }

  lemma {:induction false} WriterIsCurrent(m: Model, acts: seq<Act>, i: nat)
    requires i < |m.views| && (m.views[i] == None || m.views[i] == m.current)
    requires OnlyWriter(acts, i)
    ensures var now := ModelRun(m, acts);
      |now.views| == |m.views| && (now.views[i] == None || now.views[i] == now.current)
  {
    if acts != [] {
      WriterIsCurrent(m, acts[..|acts| - 1], i);
      assert Writes(acts[|acts| - 1].op) ==> acts[|acts| - 1].i == i;
    }
  }

  /** As long as it is the only writer, an object reads exactly the last secrets written. */
  lemma ReadsLastWritten(codec: Codec, w: World, m: Model, acts: seq<Act>, i: nat)
    requires Lawful(codec) && Shows(codec, w, m) && AllLegal(acts) && i < |w.caches|
    requires m.views[i] == None || m.views[i] == m.current
    requires OnlyWriter(acts, i)
    ensures var now := ModelRun(m, acts).current;
      Told(codec, Run(codec, w, acts), Act(i, Get)) == if now.Some? then Secrets(now.value) else Failed(NotInitialized)
  {
    hide Lawful, Shows, Told, Run;
    SameCount(codec, w, m);
    WriterIsCurrent(m, acts, i);
    StoreIsVariable(codec, w, m, acts, Act(i, Get));
  }

  lemma SameCount(codec: Codec, w: World, m: Model)
    requires Shows(codec, w, m)
    ensures |w.caches| == |m.views|
  {
  }

  predicate Silent(acts: seq<Act>, i: nat) {
    forall k :: 0 <= k < |acts| ==> acts[k].i != i
  }

  lemma {:induction false} SilentSeesNothing(m: Model, acts: seq<Act>, i: nat)
    requires i < |m.views| && Silent(acts, i)
    ensures var now := ModelRun(m, acts); |now.views| == |m.views| && now.views[i] == m.views[i]
  {
    if acts != [] {
      SilentSeesNothing(m, acts[..|acts| - 1], i);
      assert acts[|acts| - 1].i != i;
    }
  }

  /** An object that has done nothing yet reads the last secrets written by anybody. */
  lemma FreshReadsLastWritten(codec: Codec, w: World, m: Model, acts: seq<Act>, i: nat)
    requires Lawful(codec) && Shows(codec, w, m) && AllLegal(acts) && i < |w.caches|
    requires m.views[i] == None && Silent(acts, i)
    ensures var now := ModelRun(m, acts).current;
      Told(codec, Run(codec, w, acts), Act(i, Get)) == if now.Some? then Secrets(now.value) else Failed(NotInitialized)
  {
    hide Lawful, Shows, Told, Run;
    SameCount(codec, w, m);
    SilentSeesNothing(m, acts, i);
    StoreIsVariable(codec, w, m, acts, Act(i, Get));
  }

  /** An object that has read once and does not write reads the same for ever, whatever the others write. */
  lemma {:induction false} CopyIsKept(m: Model, acts: seq<Act>, i: nat)
    requires i < |m.views| && m.views[i].Some?
    requires forall k :: 0 <= k < |acts| && acts[k].i == i ==> !Writes(acts[k].op)
    ensures var now := ModelRun(m, acts);
      |now.views| == |m.views| && now.views[i] == m.views[i] && ModelTold(now, Act(i, Get)) == Secrets(m.views[i].value)
  {
    if acts != [] {
      CopyIsKept(m, acts[..|acts| - 1], i);
      assert acts[|acts| - 1].i == i ==> !Writes(acts[|acts| - 1].op);
    }
  }

  /**
   Two objects that both write: the second write is made on a stale copy and loses the
   first, as a third object sees.
  */
  lemma StaleWriteLosesSecret(codec: Codec, random: Bytes, x: Json, y: Json) returns (acts: seq<Act>)
    requires Lawful(codec) && |random| == 16
    ensures var none := Cache(None, None);
      var now := Run(codec, World(None, [none, none, none]), acts);
      && AllLegal(acts) && Act(1, SetKey(["a"], x)) in acts
      && Told(codec, now, Act(2, Get)) == Secrets(Obj(map["b" := y]))
      && Told(codec, now, Act(1, Get)) == Secrets(Obj(map["a" := x]))
  {
    hide Lawful;
    acts := [Act(0, Init(random)), Act(0, Get), Act(1, SetKey(["a"], x)), Act(0, SetKey(["b"], y))];
    var w, m := World(None, [Cache(None, None), Cache(None, None), Cache(None, None)]), Model(None, [None, None, None]);
    assert Shows(codec, w, m);
    LosingRun(random, x, y, acts);
    hide Shows, Run, Told, ModelRun;
    assert acts[2] == Act(1, SetKey(["a"], x));
    StoreIsVariable(codec, w, m, acts, Act(2, Get));
    StoreIsVariable(codec, w, m, acts, Act(1, Get));
  }

  lemma LosingRun(random: Bytes, x: Json, y: Json, acts: seq<Act>)
    requires acts == [Act(0, Init(random)), Act(0, Get), Act(1, SetKey(["a"], x)), Act(0, SetKey(["b"], y))]
    ensures ModelRun(Model(None, [None, None, None]), acts)
      == Model(Some(Obj(map["b" := y])), [Some(Obj(map["b" := y])), Some(Obj(map["a" := x])), None])
  {
    var m := Model(None, [None, None, None]);
    var one, two, three := acts[..1], acts[..2], acts[..3];
    assert one[..0] == [] && two[..1] == one && three[..2] == two;
    assert ModelRun(m, one) == Model(Some(EMPTY), [None, None, None]);
    assert ModelRun(m, two) == Model(Some(EMPTY), [Some(EMPTY), None, None]);
    assert Put(EMPTY, ["a"], x) == Obj(map["a" := x]) && Put(EMPTY, ["b"], y) == Obj(map["b" := y]);
    assert ModelRun(m, three) == Model(Some(Obj(map["a" := x])), [Some(EMPTY), Some(Obj(map["a" := x])), None]);
  }

  // ----- the cached bytes

  /** What object `i` has cached, put together, is the file. */
  ghost predicate Coherent(w: World, i: nat) {
    i < |w.caches| && Splits(w.file, w.caches[i])
  }

  ghost predicate Splits(file: Option<Bytes>, c: Cache) {
    && (c.iv.Some? <==> c.raw.Some?)
    && (c.iv.Some? ==> file == Some(c.iv.value + c.raw.value))
  }

  lemma StepSplits(codec: Codec, file: Option<Bytes>, c: Cache, op: Op)
    requires Splits(file, c)
    ensures Splits(Step(codec, file, c, op).file, Step(codec, file, c, op).cache)
  {
    if file.Some? {
      assert Head(file.value) + Tail(file.value) == file.value;
    }
  }

  lemma OthersKeepFile(codec: Codec, file: Option<Bytes>, c: Cache, op: Op)
    requires !Writes(op) && file.Some?
    ensures Step(codec, file, c, op).file == file
  {
  }

  /** On any file, even one that is not a store, the cache of the only writer is always the split of the file. */
  lemma {:induction false} CacheIsFile(codec: Codec, w: World, acts: seq<Act>, i: nat)
    requires Coherent(w, i) && OnlyWriter(acts, i)
    ensures Coherent(Run(codec, w, acts), i)
  {
    if acts != [] {
      var before, last := Run(codec, w, acts[..|acts| - 1]), acts[|acts| - 1];
      CacheIsFile(codec, w, acts[..|acts| - 1], i);
      assert Writes(last.op) ==> last.i == i;
      hide Run, Step;
      assert Run(codec, w, acts) == Do(codec, before, last) by {
        LastAct(codec, w, acts);
      }
      if last.i == i {
        StepSplits(codec, before.file, before.caches[i], last.op);
      } else if last.i < |before.caches| && before.file.Some? {
        OthersKeepFile(codec, before.file, before.caches[last.i], last.op);
      }
    }
  }

  lemma LastAct(codec: Codec, w: World, acts: seq<Act>)
    requires acts != []
    ensures Run(codec, w, acts) == Do(codec, Run(codec, w, acts[..|acts| - 1]), acts[|acts| - 1])
  {
  }

  // ----- one operation after another

  /** The object reads these secrets. */
  ghost predicate Reads(codec: Codec, w: World, i: nat, v: Json) {
    i < |w.caches| && Told(codec, w, Act(i, Get)) == Secrets(v)
  }

  /** A value is read by the path that leads to it. */
  lemma KeyIsRead(codec: Codec, w: World, i: nat, v: Json, path: seq<string>)
    requires Reads(codec, w, i, v)
    ensures Told(codec, w, Act(i, GetKey(path))) == Found(Lookup(v, path))
  {
  }

  /** An object that can read can write, and reads what it wrote. */
  lemma WrittenIsRead(codec: Codec, w: World, i: nat, v: Json, op: Op, now: Json)
    requires Lawful(codec) && Reads(codec, w, i, v)
    requires op == Set(now) || (op.SetKey? && now == Put(v, op.path, op.value)) || (op.Unset? && now == Remove(v, op.path))
    ensures Told(codec, w, Act(i, op)) == Stored && Reads(codec, Do(codec, w, Act(i, op)), i, now)
  {
    var c := Loaded(w.file, w.caches[i]).value;
    CipherRoundTrip(codec, now, c.iv.value);
    hide Encrypt, Decrypt, Lawful, Put, Remove;
    assert Step(codec, w.file, w.caches[i], op) == Save(codec, w.file, c, now);
  }

  /** After `set` with a path the value is found there, and every path apart from it leads where it did. */
  lemma SetKeyIsRead(codec: Codec, w: World, i: nat, v: Json, path: seq<string>, x: Json, q: seq<string>)
    requires Lawful(codec) && Reads(codec, w, i, v) && v.Obj? && path != []
    ensures var next := Do(codec, w, Act(i, SetKey(path, x)));
      && Told(codec, w, Act(i, SetKey(path, x))) == Stored
      && Told(codec, next, Act(i, GetKey(path))) == Found(Some(x))
      && (Apart(path, q) ==> Told(codec, next, Act(i, GetKey(q))) == Found(Lookup(v, q)))
  {
    WrittenIsRead(codec, w, i, v, SetKey(path, x), Put(v, path, x));
    LookupPut(v, path, x);
    hide Reads, Told, Do, Lookup, Put, Lawful;
    var next := Do(codec, w, Act(i, SetKey(path, x)));
    KeyIsRead(codec, next, i, Put(v, path, x), path);
    KeyIsRead(codec, next, i, Put(v, path, x), q);
  }

  /** After `unset` nothing is found there, and every path apart from it leads where it did. */
  lemma UnsetIsGone(codec: Codec, w: World, i: nat, v: Json, path: seq<string>, q: seq<string>)
    requires Lawful(codec) && Reads(codec, w, i, v) && path != []
    ensures var next := Do(codec, w, Act(i, Unset(path)));
      && Told(codec, w, Act(i, Unset(path))) == Stored
      && Told(codec, next, Act(i, GetKey(path))) == Found(None)
      && (Apart(path, q) ==> Told(codec, next, Act(i, GetKey(q))) == Found(Lookup(v, q)))
  {
    WrittenIsRead(codec, w, i, v, Unset(path), Remove(v, path));
    LookupRemove(v, path);
    hide Reads, Told, Do, Lookup, Remove, Lawful;
    var next := Do(codec, w, Act(i, Unset(path)));
    KeyIsRead(codec, next, i, Remove(v, path), path);
    KeyIsRead(codec, next, i, Remove(v, path), q);
  }

  /** The file starts with the vector that the object read, and after it stands what is stored for the secrets. */
  lemma FileExactly(codec: Codec, w: World, i: nat, v: Json, secrets: Json, j: nat) returns (iv: Bytes)
    requires Reads(codec, w, i, v) && j < |codec.print_(secrets)|
    ensures |iv| == 16
    ensures w.caches[i].iv == Some(iv) || (w.file.Some? && |w.file.value| >= 16 && iv == w.file.value[..16])
    ensures var next := Do(codec, w, Act(i, Set(secrets))).file;
      && next.Some? && |next.value| == 16 + 2 * |codec.print_(secrets)| && next.value[..16] == iv
      && var b := codec.print_(secrets)[j] ^ codec.stream(iv, j);
      && (b >> 4) < 16 && (b & 15) < 16
      && next.value[16 + 2 * j] == DIGITS[(b >> 4) as int] && next.value[16 + 2 * j + 1] == DIGITS[(b & 15) as int]
  {
    iv := Loaded(w.file, w.caches[i]).value.iv.value;
    StoredExactly(codec, secrets, iv, j);
    hide Encrypt;
  }
}
