/** The Function base class of nujo's autodiff: how a graph node is looked
    up in (or added to) the function cache, how it is initialised and linked
    to its children, and how calling it refreshes its output placeholder. */
module Graph {
  import opened Wrappers
  import opened Builtins
  import opened NdArrays

  type Value = NdArray<int>

  /** The part of nujo's Tensor that the Function machinery reads or writes. */
  class Tensor {
    const id: nat
    const name: string
    const diff: bool
    const creator: Function?
    var value: Option<Value>
    /** Output placeholders of the functions that consume this tensor. */
    var parentsOutputs: seq<Tensor>

    constructor (id: nat, value: Option<Value>, diff: bool, creator: Function?, name: string)
      ensures this.id == id && this.value == value && this.diff == diff
      ensures this.creator == creator && this.name == name
      ensures parentsOutputs == []
    {
      this.id := id;
      this.value := value;
      this.diff := diff;
      this.creator := creator;
      this.name := name;
      parentsOutputs := [];
    }
  }

  /** A constructor argument that is not a Tensor: a number or a tuple of numbers. */
  datatype Raw = Int(n: int) | IntTuple(items: seq<int>)

  /** Python's `str` of a raw argument. */
  function Str(x: Raw): string
  {
    match x
    case Int(n) => IntToString(n)
    case IntTuple(items) =>
      if |items| == 0 then "()"
      else if |items| == 1 then "(" + IntToString(items[0]) + ",)"
      else "(" + JoinInts(items) + ")"
  }

  /** The items of a tuple separated by ", ". */
  function JoinInts(items: seq<int>): string
    requires |items| >= 1
  {
    if |items| == 1 then IntToString(items[0])
    else IntToString(items[0]) + ", " + JoinInts(items[1..])
  }

  /** The array a Tensor built from a raw argument holds. */
  function RawValue(x: Raw): (v: Value)
    ensures v.Valid()
  {
    match x
    case Int(n) => NdArray([], [n])
    case IntTuple(items) =>
      assert [|items|][1..] == [] && Product([]) == 1;
      assert Product([|items|]) == |items| * Product([]);
      NdArray([|items|], items)
  }

  datatype Arg = TensorArg(t: Tensor) | RawArg(x: Raw)

  /** What the cache key records of one argument: a Tensor's id or a raw value. */
  datatype ArgId = TensorId(id: nat) | RawId(x: Raw)

  function Identity(a: Arg): ArgId
  {
    match a
    case TensorArg(t) => TensorId(t.id)
    case RawArg(x) => RawId(x)
  }

  function Identities(args: seq<Arg>): (ids: seq<ArgId>)
    ensures |ids| == |args|
    ensures forall i :: 0 <= i < |args| ==> ids[i] == Identity(args[i])
  {
    if args == [] then [] else [Identity(args[0])] + Identities(args[1..])
  }

  /** The text one argument contributes to the key. */
  function Token(a: ArgId): string
  {
    match a
    case TensorId(id) => NatToString(id)
    case RawId(x) => Str(x)
  }

  /** The tokens of all arguments, concatenated with no separator. */
  function Tokens(ids: seq<ArgId>): string
  {
    if ids == [] then "" else Token(ids[0]) + Tokens(ids[1..])
  }

  /** The cache key: the class tag (`str(hash(cls))`) followed by the tokens. */
  function KeyOf(kind: string, ids: seq<ArgId>): string
  {
    kind + Tokens(ids)
  }

  function Key(kind: string, args: seq<Arg>): string
  {
    KeyOf(kind, Identities(args))
  }

  function Repeat<T>(x: T, n: nat): (r: seq<T>)
    ensures |r| == n && forall i :: 0 <= i < n ==> r[i] == x
  {
    seq(n, _ => x)
  }

  /** `repr` of a function node: the node's own text (its name) then `#id`. */
  function ReprText(name: string, id: nat): string
  {
    name + "#" + NatToString(id)
  }

  /** Name of a function's output placeholder: `Z` followed by the function's repr. */
  function PlaceholderName(name: string, id: nat): string
  {
    "Z" + ReprText(name, id)
  }

  /** The values of a sequence of tensors, in order. */
  function Values(ts: seq<Tensor>): (vs: seq<Option<Value>>)
    reads ts
    ensures |vs| == |ts| && forall i :: 0 <= i < |ts| ==> vs[i] == ts[i].value
  {
    if ts == [] then [] else [ts[0].value] + Values(ts[1..])
  }

  /** The Tensors an argument list names. */
  function ArgTensors(args: seq<Arg>): set<Tensor>
  {
    if args == [] then {}
    else (if args[0].TensorArg? then {args[0].t} else {}) + ArgTensors(args[1..])
  }

  lemma {:induction false} ArgTensorsContain(args: seq<Arg>, i: nat)
    requires i < |args| && args[i].TensorArg?
    ensures args[i].t in ArgTensors(args)
  {
    if i > 0 {
      ArgTensorsContain(args[1..], i - 1);
    }
  }

  /** Every Tensor an argument list names is at its position in `ts`. */
  lemma {:induction false} ArgTensorsIn(args: seq<Arg>, ts: seq<Tensor>)
    requires |ts| == |args|
    requires forall i :: 0 <= i < |args| && args[i].TensorArg? ==> ts[i] == args[i].t
    ensures forall t :: t in ArgTensors(args) ==> t in ts
  {
    if args != [] {
      ArgTensorsIn(args[1..], ts[1..]);
    }
  }

  /** `t` is the leaf Tensor `_parse_inputs` makes from the raw argument `x`:
      named after its `str`, holding its value, not differentiable and with
      no creator. */
  predicate LeafOf(t: Tensor, x: Raw)
    reads t`value
  {
    t.name == Str(x) && t.value == Some(RawValue(x)) && !t.diff && t.creator == null
  }

  /** `t` is what `_parse_inputs` makes of the argument `a` when the ids it
      hands out lie in `[lo, hi)`. */
  predicate ParsedAs(a: Arg, t: Tensor, lo: int, hi: int)
    reads t`value, t`parentsOutputs
  {
    && (a.TensorArg? ==> t == a.t)
    && (a.RawArg? ==> lo <= t.id < hi && LeafOf(t, a.x) && t.parentsOutputs == [])
  }

  /** Python's `any(x.diff for x in ts)`. */
  function AnyDiff(ts: seq<Tensor>): (r: bool)
    ensures r <==> exists i :: 0 <= i < |ts| && ts[i].diff
  {
    if ts == [] then false else ts[0].diff || AnyDiff(ts[1..])
  }

  /** What `Function.__init__` leaves behind when it runs in full: the
      node as built (`Built`) and, while recording, its children linked to
      the new placeholder (`Linked`). */
  twostate predicate Initialised(new f: Function, inputs: seq<Arg>, name: string, recording: bool)
    reads f`id, f`name, f`children, f`placeholder, f.children, f.placeholder, ArgTensors(inputs)
  {
    Built(f, inputs, name, recording) && Linked(f, inputs, recording)
  }

  /** The children parsed from `inputs`, a name, and one new output
      placeholder whose `diff` and `creator` follow the recording flag. */
  twostate predicate Built(new f: Function, inputs: seq<Arg>, name: string, recording: bool)
    reads f`id, f`name, f`children, f`placeholder, f.children`value, f.placeholder
  {
    ChildrenBuilt(f, inputs) && PlaceholderBuilt(f, name, recording)
  }

  /** Tensor inputs are the children at their positions; every other input
      became a new leaf Tensor. */
  twostate predicate ChildrenBuilt(new f: Function, inputs: seq<Arg>)
    reads f`children, f.children`value
  {
    && |f.children| == |inputs|
    && (forall i :: 0 <= i < |inputs| && inputs[i].TensorArg? ==> f.children[i] == inputs[i].t)
    && (forall i :: 0 <= i < |inputs| && inputs[i].RawArg? ==>
          fresh(f.children[i]) && LeafOf(f.children[i], inputs[i].x))
  }

  /** The node's name and its one new output placeholder. */
  twostate predicate PlaceholderBuilt(new f: Function, name: string, recording: bool)
    reads f`name, f`id, f`children, f`placeholder, f.placeholder
  {
    && f.name == name
    && f.placeholder != null && fresh(f.placeholder)
    && f.placeholder.value == None
    && f.placeholder.name == PlaceholderName(name, f.id)
    && (f.placeholder.diff <==> recording && exists i :: 0 <= i < |f.children| && f.children[i].diff)
    && f.placeholder.creator == (if recording then f else null)
    && f.placeholder.parentsOutputs == []
  }

  /** While recording, every Tensor input gains one link to the placeholder
      per occurrence among the children, and every Tensor made from a raw
      input has exactly that one link; otherwise nothing is linked. */
  twostate predicate Linked(new f: Function, inputs: seq<Arg>, recording: bool)
    reads f`children, f`placeholder, f.children, ArgTensors(inputs)
  {
    && (forall i :: 0 <= i < |inputs| && inputs[i].TensorArg? ==>
          (ArgTensorsContain(inputs, i);
           inputs[i].t.parentsOutputs == old(inputs[i].t.parentsOutputs)
             + Repeat(f.placeholder, if recording then multiset(f.children)[inputs[i].t] else 0)))
    && (forall i :: 0 <= i < |inputs| && inputs[i].RawArg? ==>
          i < |f.children| && f.children[i].parentsOutputs == if recording then [f.placeholder] else [])
  }

  /** nujo's Function: a graph node with children and one output placeholder. */
  class Function {
    /** The class tag, `str(hash(cls))`. */
    const kind: string
    var id: nat
    var name: string
    var children: seq<Tensor>
    var placeholder: Tensor?
    /** The attributes a subclass's `__init__` sets after `Function.__init__`
        (`shape`, `dims`, `padding`, `kernel_size`, ...). */
    var attrs: seq<Raw>

    /** `object.__new__`: an instance whose `__init__` has not run yet. */
    constructor Allocate(kind: string)
      ensures this.kind == kind && children == [] && placeholder == null && attrs == []
    {
      this.kind := kind;
      id := 0;
      name := "";
      children := [];
      placeholder := null;
      attrs := [];
    }

    /** `__call__`: store `forward()` of the children's values in the
        placeholder and hand back that same placeholder. */
    method Call(forward: seq<Option<Value>> -> Value) returns (out: Tensor)
      requires placeholder != null
      modifies placeholder`value
      ensures out == placeholder
      ensures out.value == Some(forward(old(Values(children))))
    {
      var v := forward(Values(children));
      placeholder.value := Some(v);
      out := placeholder;
    }

    /** What a subclass's `__init__` does after `Function.__init__`: assert
        `check` of the children's values, then set the attributes. */
    method SubclassBody(check: seq<Option<Value>> -> bool, attrs: seq<Raw>) returns (r: Result<Function>)
      modifies this`attrs
      ensures r == (if check(Values(children)) then Ok(this) else Err(AssertionError))
      ensures r.Ok? ==> this.attrs == attrs
      ensures r.Err? ==> this.attrs == old(this.attrs)
    {
      if check(Values(children)) {
        this.attrs := attrs;
        r := Ok(this);
      } else {
        r := Err(AssertionError);
      }
    }
  }

  /** The loop of `Function.__init__`: append the placeholder `p` to the
      `parentsOutputs` of every child in turn, so a child that occurs
      several times gets one link per occurrence. */
  method LinkChildren(ts: seq<Tensor>, p: Tensor)
    requires p !in ts
    modifies ts`parentsOutputs
    ensures forall i :: 0 <= i < |ts| ==>
      ts[i].parentsOutputs == old(ts[i].parentsOutputs) + Repeat(p, multiset(ts)[ts[i]])
  {
    var i := 0;
    while i < |ts|
      invariant 0 <= i <= |ts|
      invariant forall t :: t in ts ==>
        t.parentsOutputs == old(t.parentsOutputs) + Repeat(p, multiset(ts[..i])[t])
    {
      ts[i].parentsOutputs := ts[i].parentsOutputs + [p];
      forall t | t in ts
        ensures multiset(ts[..i + 1])[t] == multiset(ts[..i])[t] + (if t == ts[i] then 1 else 0)
      {
        CountStep(ts, i, t);
      }
      i := i + 1;
    }
    assert ts[..|ts|] == ts;
  }

  /** Extending a prefix by one position adds one occurrence of the element there. */
  lemma CountStep<T>(s: seq<T>, i: nat, x: T)
    requires i < |s|
    ensures multiset(s[..i + 1])[x] == multiset(s[..i])[x] + (if x == s[i] then 1 else 0)
  {
    assert s[..i + 1] == s[..i] + [s[i]];
  }

  /** An element that no other position holds occurs once. */
  lemma OccursOnce<T>(s: seq<T>, i: nat)
    requires i < |s|
    requires forall j :: 0 <= j < |s| && j != i ==> s[j] != s[i]
    ensures multiset(s)[s[i]] == 1
  {
    assert s == s[..i] + [s[i]] + s[i + 1..];
    assert s[i] !in s[..i];
    assert s[i] !in s[i + 1..];
  }

  /** A Tensor `_parse_inputs` creates for a raw input occurs once among the children. */
  twostate lemma RawChildrenOccurOnce(inputs: seq<Arg>, new ts: seq<Tensor>)
    requires |ts| == |inputs|
    requires forall i :: 0 <= i < |inputs| && inputs[i].TensorArg? ==> ts[i] == inputs[i].t
    requires forall i :: 0 <= i < |inputs| && inputs[i].RawArg? ==> fresh(ts[i])
    requires forall i, j :: 0 <= i < j < |inputs| && inputs[i].RawArg? && inputs[j].RawArg? ==> ts[i] != ts[j]
    ensures forall i :: 0 <= i < |inputs| && inputs[i].RawArg? ==> multiset(ts)[ts[i]] == 1
  {
    forall i | 0 <= i < |inputs| && inputs[i].RawArg?
      ensures multiset(ts)[ts[i]] == 1
    {
      forall j | 0 <= j < |ts| && j != i
        ensures ts[j] != ts[i]
      {
        if inputs[j].TensorArg? {
          assert old(allocated(inputs[j].t));
        }
      }
      OccursOnce(ts, i);
    }
  }

  /** State the Python code keeps in class attributes and module globals:
      the function cache, the cache-hit flag, the recording flag
      (`modes.DIFF_ENABLED`) and the node id counter. */
  class Session {
    var cache: map<string, Function>
    var cacheHit: bool
    var diffEnabled: bool
    var nextId: nat

    /** Every cached function has been initialised. */
    ghost predicate Valid()
      reads this, cache.Values`placeholder
    {
      forall f :: f in cache.Values ==> f.placeholder != null
    }

    constructor (diffEnabled: bool)
      ensures Valid() && cache == map[] && !cacheHit && this.diffEnabled == diffEnabled
    {
      cache := map[];
      cacheHit := false;
      this.diffEnabled := diffEnabled;
      nextId := 0;
    }

    /** A fresh node id. */
    method FreshId() returns (id: nat)
      modifies this`nextId
      ensures id == old(nextId) && nextId == old(nextId) + 1
    {
      id := nextId;
      nextId := nextId + 1;
    }

    /** `Function.__new__`: the cached instance on a hit, otherwise a new
        one, which is registered only while recording. */
    method New(kind: string, args: seq<Arg>) returns (f: Function)
      modifies this`cache, this`cacheHit
      ensures var key := Key(kind, args);
        if !diffEnabled then
          fresh(f) && f.kind == kind && f.placeholder == null && f.attrs == [] && !cacheHit && cache == old(cache)
        else if key in old(cache) then
          f == old(cache)[key] && cacheHit && cache == old(cache)
        else
          fresh(f) && f.kind == kind && f.placeholder == null && f.attrs == [] && !cacheHit
          && cache == old(cache)[key := f]
    {
      if diffEnabled {
        var key := Key(kind, args);
        if key in cache {
          cacheHit := true;
          f := cache[key];
        } else {
          cacheHit := false;
          f := new Function.Allocate(kind);
          cache := cache[key := f];
        }
      } else {
        cacheHit := false;
        f := new Function.Allocate(kind);
      }
    }

    /** `_parse_inputs`: Tensors pass through, every other input becomes a
        new leaf Tensor named after its `str`. */
    method ParseInputs(inputs: seq<Arg>) returns (ts: seq<Tensor>)
      modifies this`nextId
      ensures |ts| == |inputs| && nextId >= old(nextId)
      ensures forall i :: 0 <= i < |inputs| && inputs[i].TensorArg? ==> ts[i] == inputs[i].t
      ensures forall i :: 0 <= i < |inputs| && inputs[i].RawArg? ==>
        fresh(ts[i]) && old(nextId) <= ts[i].id < nextId && LeafOf(ts[i], inputs[i].x) && ts[i].parentsOutputs == []
      ensures forall i, j :: 0 <= i < j < |inputs| && inputs[i].RawArg? && inputs[j].RawArg? ==> ts[i] != ts[j]
    {
      ts := [];
      var i := 0;
      while i < |inputs|
        invariant 0 <= i <= |inputs| && |ts| == i && nextId >= old(nextId)
        invariant forall k :: 0 <= k < i ==> ParsedAs(inputs[k], ts[k], old(nextId), nextId)
        invariant forall k :: 0 <= k < i && inputs[k].RawArg? ==> fresh(ts[k])
        invariant forall k, j :: 0 <= k < j < i && inputs[k].RawArg? && inputs[j].RawArg? ==> ts[k] != ts[j]
      {
        var t := ParseInput(inputs[i]);
        ts := ts + [t];
        i := i + 1;
      }
    }

    /** `_parse_inputs`, and every Tensor it makes occurs once among the results. */
    method ParseChildren(inputs: seq<Arg>) returns (ts: seq<Tensor>)
      modifies this`nextId
      ensures |ts| == |inputs| && nextId >= old(nextId)
      ensures forall i :: 0 <= i < |inputs| && inputs[i].TensorArg? ==> ts[i] == inputs[i].t
      ensures forall i :: 0 <= i < |inputs| && inputs[i].RawArg? ==>
        && fresh(ts[i]) && LeafOf(ts[i], inputs[i].x) && ts[i].parentsOutputs == []
        && multiset(ts)[ts[i]] == 1
    {
      ts := ParseInputs(inputs);
      RawChildrenOccurOnce(inputs, ts);
    }

    /** One step of `_parse_inputs`: a Tensor passes through, any other
        input becomes a new leaf Tensor with the next id. */
    method ParseInput(a: Arg) returns (t: Tensor)
      modifies this`nextId
      ensures a.TensorArg? ==> t == a.t && nextId == old(nextId)
      ensures a.RawArg? ==>
        && fresh(t) && t.id == old(nextId) && nextId == old(nextId) + 1
        && LeafOf(t, a.x) && t.parentsOutputs == []
    {
      match a {
        case TensorArg(x) =>
          t := x;
        case RawArg(x) =>
          var id := FreshId();
          t := new Tensor(id, Some(RawValue(x)), false, null, Str(x));
      }
    }
    /** `Function.__init__`: returns at once after a cache hit; otherwise
        does the full initialisation. */
    method Init(f: Function, inputs: seq<Arg>, name: string)
      modifies this`nextId, if cacheHit then {} else {f}, (if cacheHit then {} else ArgTensors(inputs))`parentsOutputs
      ensures old(cacheHit) ==> nextId == old(nextId)
      ensures !old(cacheHit) ==> old(nextId) <= f.id < nextId && Initialised(f, inputs, name, diffEnabled)
      ensures !old(cacheHit) ==> old(nextId) <= f.placeholder.id < nextId
      ensures f.attrs == old(f.attrs)
    {
      if cacheHit {
        return;
      }
      InitNode(f, inputs, name);
    }

    /** The body of `Function.__init__` after the cache-hit check: build the
        node, then, while recording, append its placeholder to every child's
        `parentsOutputs`. */
    method InitNode(f: Function, inputs: seq<Arg>, name: string)
      modifies this`nextId, f`id, f`name, f`children, f`placeholder, ArgTensors(inputs)`parentsOutputs
      ensures old(nextId) <= f.id < nextId && Initialised(f, inputs, name, diffEnabled)
      ensures old(nextId) <= f.placeholder.id < nextId
    {
      MakeNode(f, inputs, name);
      forall k | 0 <= k < |inputs| && inputs[k].TensorArg?
        ensures f.children[k] in ArgTensors(inputs)
      {
        ArgTensorsContain(inputs, k);
      }
      label Made:
      if diffEnabled {
        LinkChildren(f.children, f.placeholder);
      }
      assert Built(f, inputs, name, diffEnabled);
      assert forall i :: 0 <= i < |inputs| && inputs[i].RawArg? ==>
        old@Made(f.children[i].parentsOutputs) == [];
    }

    /** Parse the inputs, take a node id and create the output placeholder. */
    method MakeNode(f: Function, inputs: seq<Arg>, name: string)
      modifies this`nextId, f`id, f`name, f`children, f`placeholder
      ensures old(nextId) <= f.id < nextId && Built(f, inputs, name, diffEnabled)
      ensures old(nextId) <= f.placeholder.id < nextId && f.placeholder !in f.children
      ensures forall i :: 0 <= i < |inputs| && inputs[i].RawArg? ==>
        f.children[i].parentsOutputs == [] && multiset(f.children)[f.children[i]] == 1
    {
      var ts := ParseChildren(inputs);
      Attach(f, ts, name);
      assert ChildrenBuilt(f, inputs);
    }

    /** Take a node id, record the name and the children, and create the
        output placeholder with the next id. */
    method Attach(f: Function, ts: seq<Tensor>, name: string)
      modifies this`nextId, f`id, f`name, f`children, f`placeholder
      ensures old(nextId) <= f.id < nextId && f.children == ts
      ensures PlaceholderBuilt(f, name, diffEnabled) && f.placeholder !in ts
      ensures old(nextId) <= f.placeholder.id < nextId
    {
      var id := FreshId();
      var pid := FreshId();
      var p := new Tensor(pid, None, AnyDiff(ts) && diffEnabled,
                          if diffEnabled then f else null, PlaceholderName(name, id));
      f.id, f.name, f.children, f.placeholder := id, name, ts, p;
    }

    /** Constructing a Function subclass, `Cls(*args)`: `__new__` on the
        arguments that make up the key, then `Function.__init__` on the
        inputs the subclass passes on. */
    method Construct(kind: string, keyArgs: seq<Arg>, inputs: seq<Arg>, name: string) returns (f: Function)
      requires Valid()
      modifies this, cache.Values, ArgTensors(inputs)`parentsOutputs
      ensures Valid() && f.placeholder != null && diffEnabled == old(diffEnabled)
      ensures Constructed(this, f, kind, keyArgs, inputs, name, old(cache))
      ensures unchanged(old(cache).Values`attrs) && (fresh(f) ==> f.attrs == [])
    {
      f := NewThenInit(kind, keyArgs, inputs, name);
      forall g | g in cache.Values
        ensures g.placeholder != null
      {
        if g != f {
          assert g in old(cache).Values;
        }
      }
    }

    /** `__new__` then `__init__`, before the cache invariant is re-established. */
    method NewThenInit(kind: string, keyArgs: seq<Arg>, inputs: seq<Arg>, name: string) returns (f: Function)
      requires Valid()
      modifies this, cache.Values, ArgTensors(inputs)`parentsOutputs
      ensures f.placeholder != null && diffEnabled == old(diffEnabled)
      ensures Constructed(this, f, kind, keyArgs, inputs, name, old(cache))
      ensures unchanged(old(cache).Values`attrs) && (fresh(f) ==> f.attrs == [])
    {
      if diffEnabled && Key(kind, keyArgs) in cache {
        f := New(kind, keyArgs);
        Init(f, inputs, name);
      } else {
        f := NewThenInitOnMiss(kind, keyArgs, inputs, name);
      }
    }

    /** `__new__` then `__init__` for a key that is not cached or while not recording. */
    method NewThenInitOnMiss(kind: string, keyArgs: seq<Arg>, inputs: seq<Arg>, name: string) returns (f: Function)
      requires !(diffEnabled && Key(kind, keyArgs) in cache)
      modifies this, ArgTensors(inputs)`parentsOutputs
      ensures f.placeholder != null && diffEnabled == old(diffEnabled)
      ensures ConstructedFresh(this, f, kind, keyArgs, inputs, name, old(cache))
      ensures unchanged(old(cache).Values`attrs) && f.attrs == []
    {
      f := New(kind, keyArgs);
      assert fresh(f) && !cacheHit && f !in old(cache).Values;
      // `__init__` with the hit flag clear runs in full.
      InitNode(f, inputs, name);
    }

    /** Constructing a subclass whose `__init__` calls `Function.__init__`,
        then asserts `check` of the node's children, then sets its
        attributes. The subclass body runs on a cache hit too, on the
        cached node; a failed assertion leaves the node built, cached and
        linked. */
    method ConstructSubclass(kind: string, keyArgs: seq<Arg>, inputs: seq<Arg>, name: string,
                             check: seq<Option<Value>> -> bool, attrs: seq<Raw>)
      returns (f: Function, r: Result<Function>)
      requires Valid()
      modifies this, cache.Values, ArgTensors(inputs)`parentsOutputs
      ensures Valid() && f.placeholder != null && diffEnabled == old(diffEnabled)
      ensures Constructed(this, f, kind, keyArgs, inputs, name, old(cache))
      ensures r == (if check(Values(f.children)) then Ok(f) else Err(AssertionError))
      ensures r.Ok? ==> f.attrs == attrs
      ensures r.Err? ==> f.attrs == if fresh(f) then [] else old(f.attrs)
      ensures unchanged((old(cache).Values - {f})`attrs)
    {
      if diffEnabled && Key(kind, keyArgs) in cache {
        f, r := ConstructSubclassOnHit(kind, keyArgs, inputs, name, check, attrs);
      } else {
        f, r := ConstructSubclassOnMiss(kind, keyArgs, inputs, name, check, attrs);
      }
    }

    /** `ConstructSubclass` for a key already cached while recording. */
    method ConstructSubclassOnHit(kind: string, keyArgs: seq<Arg>, inputs: seq<Arg>, name: string,
                                  check: seq<Option<Value>> -> bool, attrs: seq<Raw>)
      returns (f: Function, r: Result<Function>)
      requires Valid() && diffEnabled && Key(kind, keyArgs) in cache
      modifies this, cache.Values, ArgTensors(inputs)`parentsOutputs
      ensures Valid() && f.placeholder != null && diffEnabled == old(diffEnabled)
      ensures Constructed(this, f, kind, keyArgs, inputs, name, old(cache))
      ensures !fresh(f) && r == (if check(Values(f.children)) then Ok(f) else Err(AssertionError))
      ensures r.Ok? ==> f.attrs == attrs
      ensures r.Err? ==> f.attrs == old(f.attrs)
      ensures unchanged((old(cache).Values - {f})`attrs)
    {
      f := Construct(kind, keyArgs, inputs, name);
      r := f.SubclassBody(check, attrs);
    }

    /** `ConstructSubclass` for a key not cached, or while not recording. */
    method ConstructSubclassOnMiss(kind: string, keyArgs: seq<Arg>, inputs: seq<Arg>, name: string,
                                   check: seq<Option<Value>> -> bool, attrs: seq<Raw>)
      returns (f: Function, r: Result<Function>)
      requires Valid() && !(diffEnabled && Key(kind, keyArgs) in cache)
      modifies this, cache.Values, ArgTensors(inputs)`parentsOutputs
      ensures Valid() && f.placeholder != null && diffEnabled == old(diffEnabled)
      ensures ConstructedFresh(this, f, kind, keyArgs, inputs, name, old(cache))
      ensures r == (if check(Values(f.children)) then Ok(f) else Err(AssertionError))
      ensures r.Ok? ==> f.attrs == attrs
      ensures r.Err? ==> f.attrs == []
      ensures unchanged(old(cache).Values`attrs)
    {
      f := Construct(kind, keyArgs, inputs, name);
      assert ConstructedFresh(this, f, kind, keyArgs, inputs, name, old(cache));
      r := f.SubclassBody(check, attrs);
    }
  }

  /** What `Cls(*args)` leaves behind, given the cache `before` it started
      from. While recording, a key already cached gives back the cached
      node and changes none of the base-class fields of any node and no
      Tensor. Otherwise a fresh node is
      initialised in full and, while recording, registered under its key;
      it and its placeholder take ids the counter had not handed out yet. */
  twostate predicate Constructed(s: Session, new f: Function, kind: string, keyArgs: seq<Arg>,
                                 inputs: seq<Arg>, name: string, before: map<string, Function>)
    reads s, f`id, f`name, f`children, f`placeholder, f.children, f.placeholder, ArgTensors(inputs)
    reads before.Values`id, before.Values`name, before.Values`children, before.Values`placeholder
  {
    var key := Key(kind, keyArgs);
    if s.diffEnabled && key in before then
      && f == before[key] && s.cacheHit && s.cache == before && s.nextId == old(s.nextId)
      && unchanged(before.Values`id, before.Values`name, before.Values`children, before.Values`placeholder)
      && (forall i :: 0 <= i < |inputs| && inputs[i].TensorArg? ==>
            (ArgTensorsContain(inputs, i); unchanged(inputs[i].t)))
    else
      ConstructedFresh(s, f, kind, keyArgs, inputs, name, before)
  }

  /** What `Cls(*args)` leaves behind on a cache miss or while not
      recording: a fresh node initialised in full, registered under its key
      only while recording, whose own id and placeholder id the counter had
      not handed out yet; the cached nodes keep their base-class fields. */
  twostate predicate ConstructedFresh(s: Session, new f: Function, kind: string, keyArgs: seq<Arg>,
                                      inputs: seq<Arg>, name: string, before: map<string, Function>)
    reads s, f`id, f`name, f`children, f`placeholder, f.children, f.placeholder, ArgTensors(inputs)
    reads before.Values`id, before.Values`name, before.Values`children, before.Values`placeholder
  {
    && fresh(f) && f.kind == kind && !s.cacheHit
    && s.cache == (if s.diffEnabled then before[Key(kind, keyArgs) := f] else before)
    && unchanged(before.Values`id, before.Values`name, before.Values`children, before.Values`placeholder)
    && Initialised(f, inputs, name, s.diffEnabled)
    && old(s.nextId) <= f.id < s.nextId
    && f.placeholder != null && old(s.nextId) <= f.placeholder.id < s.nextId
  }

  /** Two argument lists that print the same give the same key, even when
      they name different Tensors: ids 1 and 23 against ids 12 and 3. */
  lemma KeyCollision(kind: string)
    ensures KeyOf(kind, [TensorId(1), TensorId(23)]) == KeyOf(kind, [TensorId(12), TensorId(3)])
  {
    assert NatToString(23) == NatToString(2) + [Digit(3)];
    assert NatToString(12) == NatToString(1) + [Digit(2)];
    assert Tokens([TensorId(23)]) == NatToString(23);
    assert Tokens([TensorId(3)]) == NatToString(3);
  }

  /** A Tensor with id 5 and the raw number 5 give the same key. */
  lemma TensorRawCollision(kind: string)
    ensures KeyOf(kind, [TensorId(5)]) == KeyOf(kind, [RawId(Int(5))])
  {
    assert Tokens([TensorId(5)]) == NatToString(5);
    assert Tokens([RawId(Int(5))]) == IntToString(5);
  }

  /** Two equal concatenations whose first parts have equal lengths agree part by part. */
  lemma ConcatSplit(x: string, rx: string, y: string, ry: string)
    requires |x| == |y| && x + rx == y + ry
    ensures x == y && rx == ry
  {
    assert x == (x + rx)[..|x|] && y == (y + ry)[..|x|];
    assert rx == (x + rx)[|x|..] && ry == (y + ry)[|x|..];
  }

  /** Keys built from Tensors alone tell the Tensors apart when corresponding
      ids have the same number of digits: then equal keys mean equal ids. */
  lemma KeyOfTensorsInjective(kind: string, xs: seq<nat>, ys: seq<nat>)
    requires |xs| == |ys|
    requires forall i :: 0 <= i < |xs| ==> |NatToString(xs[i])| == |NatToString(ys[i])|
    ensures KeyOf(kind, TensorIds(xs)) == KeyOf(kind, TensorIds(ys)) <==> xs == ys
  {
    if KeyOf(kind, TensorIds(xs)) == KeyOf(kind, TensorIds(ys)) {
      ConcatSplit(kind, Tokens(TensorIds(xs)), kind, Tokens(TensorIds(ys)));
      TensorTokensInjective(xs, ys);
    }
  }

  /** The induction behind `KeyOfTensorsInjective`, on the tokens alone. */
  lemma {:induction false} TensorTokensInjective(xs: seq<nat>, ys: seq<nat>)
    requires |xs| == |ys|
    requires forall i :: 0 <= i < |xs| ==> |NatToString(xs[i])| == |NatToString(ys[i])|
    requires Tokens(TensorIds(xs)) == Tokens(TensorIds(ys))
    ensures xs == ys
  {
    if xs != [] {
      assert TensorIds(xs)[1..] == TensorIds(xs[1..]);
      assert TensorIds(ys)[1..] == TensorIds(ys[1..]);
      ConcatSplit(NatToString(xs[0]), Tokens(TensorIds(xs[1..])),
                  NatToString(ys[0]), Tokens(TensorIds(ys[1..])));
      NatToStringInjective(xs[0], ys[0]);
      forall i | 0 <= i < |xs[1..]|
        ensures |NatToString(xs[1..][i])| == |NatToString(ys[1..][i])|
      {
        assert xs[1..][i] == xs[i + 1] && ys[1..][i] == ys[i + 1];
      }
      TensorTokensInjective(xs[1..], ys[1..]);
      assert xs == [xs[0]] + xs[1..] && ys == [ys[0]] + ys[1..];
    }
  }

  function TensorIds(ids: seq<nat>): (r: seq<ArgId>)
    ensures |r| == |ids| && forall i :: 0 <= i < |ids| ==> r[i] == TensorId(ids[i])
  {
    seq(|ids|, i requires 0 <= i < |ids| => TensorId(ids[i]))
  }

  /** Output placeholders of equally named functions are told apart by the function id. */
  lemma PlaceholderNameInjective(name: string, a: nat, b: nat)
    ensures PlaceholderName(name, a) == PlaceholderName(name, b) <==> a == b
  {
    if PlaceholderName(name, a) == PlaceholderName(name, b) {
      var n := |name| + 2;
      assert PlaceholderName(name, a)[n..] == NatToString(a);
      assert PlaceholderName(name, b)[n..] == NatToString(b);
      NatToStringInjective(a, b);
    }
  }

  /** Building the same function on the same arguments twice while
      recording yields one node: the second construction hits the cache. */
  method RebuildReuses(s: Session, kind: string, args: seq<Arg>, name: string)
    returns (f1: Function, f2: Function)
    requires s.Valid() && s.diffEnabled
    modifies s, s.cache.Values, ArgTensors(args)`parentsOutputs
    ensures f1 == f2 && s.cacheHit
    ensures Key(kind, args) in old(s.cache) || fresh(f1)
  {
    f1 := s.Construct(kind, args, args, name);
    f2 := s.Construct(kind, args, args, name);
  }

  /** Tensors with ids 1 and 23 give the key of Tensors with ids 12 and 3. */
  lemma CollidingKeys(a: Tensor, b: Tensor, c: Tensor, d: Tensor)
    requires a.id == 1 && b.id == 23 && c.id == 12 && d.id == 3
    ensures Key("Add", [TensorArg(a), TensorArg(b)]) == Key("Add", [TensorArg(c), TensorArg(d)])
  {
    assert Identities([TensorArg(a), TensorArg(b)]) == [TensorId(1), TensorId(23)];
    assert Identities([TensorArg(c), TensorArg(d)]) == [TensorId(12), TensorId(3)];
    KeyCollision("Add");
  }

  /** A recording construction that misses the cache registers a new node
      whose children are the given Tensors. */
  method ConstructOnMiss(s: Session, kind: string, args: seq<Arg>) returns (f: Function)
    requires s.Valid() && s.diffEnabled && Key(kind, args) !in s.cache
    modifies s, s.cache.Values, ArgTensors(args)`parentsOutputs
    ensures fresh(f) && s.Valid() && s.diffEnabled && s.cache == old(s.cache)[Key(kind, args) := f]
    ensures |f.children| == |args|
    ensures forall i :: 0 <= i < |args| && args[i].TensorArg? ==> f.children[i] == args[i].t
  {
    f := s.Construct(kind, args, args, kind);
  }

  /** A construction that hits the cache returns the cached node untouched. */
  method ConstructOnHit(s: Session, kind: string, args: seq<Arg>) returns (f: Function)
    requires s.Valid() && s.diffEnabled && Key(kind, args) in s.cache
    modifies s, s.cache.Values, ArgTensors(args)`parentsOutputs
    ensures f == old(s.cache[Key(kind, args)]) && f.children == old(f.children)
  {
    f := s.Construct(kind, args, args, kind);
  }

  /** A fresh recording session in which `Add` of two new Tensors with ids
      1 and 23 has been constructed once. */
  method FirstAdd() returns (s: Session, f1: Function, a: Tensor, b: Tensor)
    ensures fresh(s) && fresh(f1) && fresh(a) && fresh(b)
    ensures s.Valid() && s.diffEnabled && a.id == 1 && b.id == 23
    ensures s.cache == map[Key("Add", [TensorArg(a), TensorArg(b)]) := f1]
    ensures f1.children == [a, b]
  {
    s := new Session(true);
    a := new Tensor(1, None, true, null, "a");
    b := new Tensor(23, None, true, null, "b");
    var ab := [TensorArg(a), TensorArg(b)];
    ArgTensorsIn(ab, [a, b]);
    f1 := ConstructOnMiss(s, "Add", ab);
  }

  /** Tensors with ids 12 and 3 after Tensors with ids 1 and 23, in a fresh
      recording session: the second node is the first one again and its
      children are still the first two Tensors. */
  method CollidingArguments() returns (f1: Function, f2: Function, a: Tensor, b: Tensor, c: Tensor, d: Tensor)
    ensures f1 == f2 && f2.children == [a, b]
    ensures c != a && c !in f2.children && d !in f2.children
  {
    var s;
    s, f1, a, b := FirstAdd();
    c := new Tensor(12, None, true, null, "c");
    d := new Tensor(3, None, true, null, "d");
    var cd := [TensorArg(c), TensorArg(d)];
    CollidingKeys(a, b, c, d);
    ArgTensorsIn(cd, [c, d]);
    f2 := ConstructOnHit(s, "Add", cd);
  }

  /** A fresh recording session and a Tensor `x` with id 0. */
  method FreshX() returns (s: Session, x: Tensor)
    ensures fresh(s) && fresh(x) && s.Valid() && s.diffEnabled && s.cache == map[]
  {
    s := new Session(true);
    x := new Tensor(0, None, true, null, "x");
  }

  /** `_Reshape(x, shape=(6,))` and then `_Reshape(x, shape=(2, 3))` while
      recording: the keyword is not part of the key, so the second call
      hits the first node and its `__init__` body overwrites that node's
      `shape`. */
  method KeywordResetsCachedNode() returns (f1: Function, f2: Function)
    ensures f1 == f2 && f1.attrs == [IntTuple([2, 3])]
  {
    var s, x := FreshX();
    var args := [TensorArg(x)];
    ArgTensorsIn(args, [x]);
    var r1, r2;
    f1, r1 := s.ConstructSubclass("Reshape", args, args, "Reshape", _ => true, [IntTuple([6])]);
    f2, r2 := s.ConstructSubclass("Reshape", args, args, "Reshape", _ => true, [IntTuple([2, 3])]);
  }

  /** The keys of `_Reshape(x, (6,))` and `_Reshape(x, (2, 3))` differ. */
  lemma ShapeKeysDiffer(x: Tensor)
    ensures Key("Reshape", [TensorArg(x), RawArg(IntTuple([6]))])
         != Key("Reshape", [TensorArg(x), RawArg(IntTuple([2, 3]))])
  {
    var ids1 := [TensorId(x.id), RawId(IntTuple([6]))];
    var ids2 := [TensorId(x.id), RawId(IntTuple([2, 3]))];
    assert Identities([TensorArg(x), RawArg(IntTuple([6]))]) == ids1;
    assert Identities([TensorArg(x), RawArg(IntTuple([2, 3]))]) == ids2;
    assert |Str(IntTuple([6]))| == 4 by {
      assert |IntToString(6)| == 1;
    }
    assert |Str(IntTuple([2, 3]))| == 6 by {
      assert |IntToString(2)| == 1 && |IntToString(3)| == 1;
      assert JoinInts([2, 3]) == IntToString(2) + ", " + JoinInts([3]);
    }
    assert Tokens(ids1) == NatToString(x.id) + Str(IntTuple([6])) by {
      assert ids1[1..] == [RawId(IntTuple([6]))];
      assert Tokens([RawId(IntTuple([6]))]) == Str(IntTuple([6])) + Tokens([]);
    }
    assert Tokens(ids2) == NatToString(x.id) + Str(IntTuple([2, 3])) by {
      assert ids2[1..] == [RawId(IntTuple([2, 3]))];
      assert Tokens([RawId(IntTuple([2, 3]))]) == Str(IntTuple([2, 3])) + Tokens([]);
    }
    assert |KeyOf("Reshape", ids1)| != |KeyOf("Reshape", ids2)|;
  }

  /** With the keyword values in the key, the two calls build two nodes and
      the first keeps the shape it was built with. */
  method KeywordInKeyKeepsNodes() returns (f1: Function, f2: Function)
    ensures f1 != f2 && f1.attrs == [IntTuple([6])] && f2.attrs == [IntTuple([2, 3])]
  {
    var s, x := FreshX();
    var args := [TensorArg(x)];
    ArgTensorsIn(args, [x]);
    var key1 := [TensorArg(x), RawArg(IntTuple([6]))];
    var key2 := [TensorArg(x), RawArg(IntTuple([2, 3]))];
    ShapeKeysDiffer(x);
    var r1, r2;
    f1, r1 := s.ConstructSubclass("Reshape", key1, args, "Reshape", _ => true, [IntTuple([6])]);
    assert s.cache == map[Key("Reshape", key1) := f1] && Key("Reshape", key2) !in s.cache;
    f2, r2 := s.ConstructSubclass("Reshape", key2, args, "Reshape", _ => true, [IntTuple([2, 3])]);
    assert fresh(f2);
  }
}
