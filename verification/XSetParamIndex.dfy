/**
  An ordered list of parameters with an optional search map: what every operation does to the pair,
  and why a look-up in the map is a scan of the list.
 */
module XSetParamIndex {

  datatype Option<T> = None | Some(value: T)

  datatype Error = WrongType | NoKey | Duplicate | OtherName | HelperFailed

  datatype Result = Ok | Err(error: Error)

  /** A parameter, known by its address; its key does not change while it is stored. */
  class XParam<K(==), V> {
    const key: Option<K>
    const value: V

    constructor (key: Option<K>, value: V)
      ensures this.key == key && this.value == value
    {
      this.key, this.value := key, value;
    }
  }

  datatype View<K(==), V> = View(params: seq<XParam<K, V>>, smap: map<K, XParam<K, V>>, enabled: bool)

  // ---------------------------------------------------------------- the list alone

  /** The first parameter with the key. */
  function Scan<K(==), V>(ps: seq<XParam<K, V>>, k: K): Option<XParam<K, V>> {
    if ps == [] then None else if ps[0].key == Some(k) then Some(ps[0]) else Scan(ps[1..], k)
  }

  ghost predicate Distinct<K, V>(ps: seq<XParam<K, V>>) {
    && (forall i | 0 <= i < |ps| :: ps[i].key.Some?)
    && (forall i, j | 0 <= i < j < |ps| :: ps[i].key != ps[j].key)
  }

  function Removed<T>(ps: seq<T>, i: nat): seq<T>
    requires i < |ps|
  {
    ps[..i] + ps[i + 1..]
  }

  /** A scan finds a parameter with the key if there is one, at the first place where it stands. */
  lemma {:induction false} ScanFinds<K, V>(ps: seq<XParam<K, V>>, k: K) returns (i: nat)
    ensures Scan(ps, k).None? <==> forall j | 0 <= j < |ps| :: ps[j].key != Some(k)
    ensures Scan(ps, k).Some? ==>
              i < |ps| && ps[i].key == Some(k) && Scan(ps, k) == Some(ps[i]) && forall j | 0 <= j < i :: ps[j].key != Some(k)
  {
    i := 0;
    if ps != [] && ps[0].key != Some(k) {
      var r := ScanFinds(ps[1..], k);
      i := r + 1;
      assert forall j | 1 <= j < |ps| :: ps[j] == ps[1..][j - 1];
    }
  }

  lemma {:induction false} ScanConcat<K, V>(a: seq<XParam<K, V>>, b: seq<XParam<K, V>>, k: K)
    ensures Scan(a + b, k) == if Scan(a, k).Some? then Scan(a, k) else Scan(b, k)
  {
    if a == [] {
      assert a + b == b;
    } else {
      assert (a + b)[1..] == a[1..] + b;
      ScanConcat(a[1..], b, k);
    }
  }

  lemma ScanOne<K, V>(p: XParam<K, V>, k: K)
    ensures Scan([p], k) == if p.key == Some(k) then Some(p) else None
  {
  }

  // ---------------------------------------------------------------- list and map

  /** Look-ups in the map are scans of the list, whose keys are pairwise distinct. */
  ghost predicate Agree<K, V>(ps: seq<XParam<K, V>>, m: map<K, XParam<K, V>>) {
    && Distinct(ps)
    && (forall k | k in m :: Scan(ps, k) == Some(m[k]))
    && (forall i | 0 <= i < |ps| :: ps[i].key.value in m)
  }

  ghost predicate Sound<K, V>(v: View<K, V>) {
    if v.enabled then Agree(v.params, v.smap) else v.smap == map[]
  }

  function Lookup<K(==), V>(m: map<K, XParam<K, V>>, k: K): Option<XParam<K, V>> {
    if k in m then Some(m[k]) else None
  }

  /** find(k) is the one parameter whose key is k, or none. */
  lemma LookupIsScan<K, V>(ps: seq<XParam<K, V>>, m: map<K, XParam<K, V>>, k: K)
    requires Agree(ps, m)
    ensures Lookup(m, k) == Scan(ps, k)
    ensures forall i | 0 <= i < |ps| :: ps[i].key == Some(k) <==> Lookup(m, k) == Some(ps[i])
  {
    var i := ScanFinds(ps, k);
  }

  lemma AgreeAppend<K, V>(ps: seq<XParam<K, V>>, m: map<K, XParam<K, V>>, p: XParam<K, V>)
    requires Agree(ps, m) && p.key.Some? && p.key.value !in m
    ensures Agree(ps + [p], m[p.key.value := p])
  {
    forall k | k in m[p.key.value := p] ensures Scan(ps + [p], k) == Some(m[p.key.value := p][k]) {
      ScanConcat(ps, [p], k);
      ScanOne(p, k);
      LookupIsScan(ps, m, k);
    }
  }

  lemma AgreeRemove<K, V>(ps: seq<XParam<K, V>>, m: map<K, XParam<K, V>>, i: nat)
    requires Agree(ps, m) && i < |ps|
    ensures Agree(Removed(ps, i), m - {ps[i].key.value})
  {
    var rest := Removed(ps, i);
    forall k | k in m - {ps[i].key.value} ensures Scan(rest, k) == Some(m[k]) {
      ScanConcat(ps[..i], ps[i + 1..], k);
      assert ps == ps[..i] + ([ps[i]] + ps[i + 1..]);
      ScanConcat(ps[..i], [ps[i]] + ps[i + 1..], k);
      ScanConcat([ps[i]], ps[i + 1..], k);
      ScanOne(ps[i], k);
    }
    assert Distinct(rest);
  }

  // ---------------------------------------------------------------- operations

  datatype Op<K(==), V> =
    | Add(p: XParam<K, V>)
    | Enable
    | Disable
    | DeleteKey(k: K)
    | DeleteAt(i: nat)
    | Clear
    | Assign(ps: seq<XParam<K, V>>)

  /** addParam: into the map as well, or not at all. */
  function Added<K(==), V>(v: View<K, V>, p: XParam<K, V>): (View<K, V>, Result) {
    if !v.enabled then (v.(params := v.params + [p]), Ok)
    else if p.key.None? then (v, Err(NoKey))
    else if p.key.value in v.smap then (v, Err(Duplicate))
    else (v.(params := v.params + [p], smap := v.smap[p.key.value := p]), Ok)
  }

  /** enable_smap on the parameters from the `i`th on. */
  function Enabled<K(==), V>(v: View<K, V>, i: nat): (View<K, V>, Result)
    decreases |v.params| - i
  {
    if i >= |v.params| then (v.(enabled := true), Ok)
    else if v.params[i].key.None? then (v.(smap := map[]), Err(NoKey))
    else if v.params[i].key.value in v.smap then (v.(smap := map[]), Err(Duplicate))
    else Enabled(v.(smap := v.smap[v.params[i].key.value := v.params[i]]), i + 1)
  }

  function Cleared<K(==), V>(v: View<K, V>): View<K, V> {
    v.(params := [], smap := map[])
  }

  /** The parameters are added one by one; the first that is refused clears everything. */
  function AddedAll<K(==), V>(v: View<K, V>, ps: seq<XParam<K, V>>): (View<K, V>, Result)
    decreases |ps|
  {
    if ps == [] then (v, Ok)
    else if Added(v, ps[0]).1.Err? then (Cleared(v), Added(v, ps[0]).1)
    else AddedAll(Added(v, ps[0]).0, ps[1..])
  }

  /** Where the first parameter with the key stands. */
  function Place<K(==), V>(ps: seq<XParam<K, V>>, k: K): (i: nat)
    ensures i <= |ps|
  {
    if ps == [] || ps[0].key == Some(k) then 0 else 1 + Place(ps[1..], k)
  }

  function Apply<K(==), V>(v: View<K, V>, op: Op<K, V>): View<K, V> {
    match op
    case Add(p) => Added(v, p).0
    case Enable => Enabled(v, 0).0
    case Disable => v.(smap := map[], enabled := false)
    case DeleteKey(k) =>
      if k in v.smap && Place(v.params, k) < |v.params|
      then v.(params := Removed(v.params, Place(v.params, k)), smap := v.smap - {k}) else v
    case DeleteAt(i) =>
      if i >= |v.params| then v
      else v.(params := Removed(v.params, i),
              smap := if v.enabled && v.params[i].key.Some? then v.smap - {v.params[i].key.value} else v.smap)
    case Clear => Cleared(v)
    case Assign(ps) => AddedAll(Cleared(v), ps).0
  }

  // ---------------------------------------------------------------- what they keep and mean

  /** An addition succeeds exactly if the longer list still has pairwise distinct keys, or nobody asks. */
  lemma AddedSound<K, V>(v: View<K, V>, p: XParam<K, V>)
    requires Sound(v)
    ensures Sound(Added(v, p).0)
    ensures Added(v, p).1.Ok? <==> !v.enabled || Distinct(v.params + [p])
    ensures Added(v, p).0.params == if Added(v, p).1.Ok? then v.params + [p] else v.params
    ensures Added(v, p).1.Err? ==> Added(v, p).0 == v
  {
    if v.enabled && p.key.Some? {
      LookupIsScan(v.params, v.smap, p.key.value);
      if p.key.value in v.smap {
        var i := ScanFinds(v.params, p.key.value);
        assert (v.params + [p])[i].key == (v.params + [p])[|v.params|].key;
      } else {
        AgreeAppend(v.params, v.smap, p);
      }
    } else if v.enabled {
      assert (v.params + [p])[|v.params|].key.None?;
    }
  }

  lemma {:induction false} EnabledFrom<K, V>(v: View<K, V>, i: nat)
    requires i <= |v.params| && Agree(v.params[..i], v.smap)
    ensures Enabled(v, i).1.Ok? <==> Distinct(v.params)
    ensures Enabled(v, i).1.Ok? ==> Sound(Enabled(v, i).0) && Enabled(v, i).0.enabled
    ensures Enabled(v, i).1.Err? ==> Enabled(v, i).0 == v.(smap := map[])
    ensures Enabled(v, i).0.params == v.params
    decreases |v.params| - i
  {
    if i == |v.params| {
      assert v.params[..i] == v.params;
    } else {
      var p := v.params[i];
      assert v.params[..i + 1] == v.params[..i] + [p];
      if p.key.Some? && p.key.value !in v.smap {
        AgreeAppend(v.params[..i], v.smap, p);
        EnabledFrom(v.(smap := v.smap[p.key.value := p]), i + 1);
      } else if p.key.Some? {
        LookupIsScan(v.params[..i], v.smap, p.key.value);
        var j := ScanFinds(v.params[..i], p.key.value);
        assert v.params[j].key == v.params[i].key;
      }
    }
  }

  /** Enabling a map that is off succeeds exactly if all parameters have keys and no two the same; if
      it fails nothing has changed.  Enabling it once more fails as soon as there is a parameter, and
      leaves the map empty but in use: exactly then list and map stop agreeing. */
  lemma EnabledSound<K, V>(v: View<K, V>)
    requires Sound(v)
    ensures !v.enabled ==> (Enabled(v, 0).1.Ok? <==> Distinct(v.params))
    ensures !v.enabled && Enabled(v, 0).1.Err? ==> Enabled(v, 0).0 == v
    ensures Sound(Enabled(v, 0).0) <==> !(v.enabled && v.params != [])
    ensures v.enabled && v.params != [] ==> Enabled(v, 0) == (v.(smap := map[]), Err(Duplicate))
    ensures Enabled(v, 0).1.Ok? ==> Enabled(v, 0).0.enabled
  {
    if !v.enabled || v.params == [] {
      assert v.params[..0] == [];
      EmptyMap(v);
      EnabledFrom(v, 0);
    } else {
      assert v.params[0].key.value in v.smap;
    }
  }

  lemma EnableKeepsParams<K, V>(v: View<K, V>)
    requires Sound(v)
    ensures Enabled(v, 0).0.params == v.params
    ensures Enabled(v, 0).0.enabled == (v.enabled || Distinct(v.params))
  {
    if !v.enabled || v.params == [] {
      assert v.params[..0] == [];
      EmptyMap(v);
      EnabledFrom(v, 0);
    } else {
      assert v.params[0].key.value in v.smap;
    }
  }

  lemma EmptyMap<K, V>(v: View<K, V>)
    requires Sound(v) && (v.enabled ==> v.params == [])
    ensures v.smap == map[]
  {
    forall k | k in v.smap ensures false {
      LookupIsScan(v.params, v.smap, k);
    }
  }

  lemma {:induction false} AddedAllSound<K, V>(v: View<K, V>, ps: seq<XParam<K, V>>)
    requires Sound(v)
    ensures Sound(AddedAll(v, ps).0) && AddedAll(v, ps).0.enabled == v.enabled
    ensures AddedAll(v, ps).1.Ok? <==> ps == [] || !v.enabled || Distinct(v.params + ps)
    ensures AddedAll(v, ps).0.params == if AddedAll(v, ps).1.Ok? then v.params + ps else []
    decreases |ps|
  {
    if ps == [] {
      assert v.params + ps == v.params;
    } else {
      AddedSound(v, ps[0]);
      assert v.params + ps == v.params + [ps[0]] + ps[1..];
      if Added(v, ps[0]).1.Ok? {
        AddedAllSound(Added(v, ps[0]).0, ps[1..]);
        assert ps[1..] == [] ==> v.params + ps == v.params + [ps[0]];
      } else {
        DistinctPrefix(v.params + [ps[0]], ps[1..]);
        ClearedSound(v);
      }
    }
  }

  lemma DistinctPrefix<K, V>(a: seq<XParam<K, V>>, b: seq<XParam<K, V>>)
    ensures Distinct(a + b) ==> Distinct(a)
  {
    assert forall i | 0 <= i < |a| :: a[i] == (a + b)[i];
  }

  lemma ClearedSound<K, V>(v: View<K, V>)
    ensures Sound(Cleared(v))
  {
  }

  lemma {:induction false} PlaceIs<K, V>(ps: seq<XParam<K, V>>, k: K)
    ensures Scan(ps, k) == if Place(ps, k) < |ps| then Some(ps[Place(ps, k)]) else None
    ensures Place(ps, k) < |ps| ==> ps[Place(ps, k)].key == Some(k)
  {
    if ps != [] && ps[0].key != Some(k) {
      PlaceIs(ps[1..], k);
    }
  }

  /** Deleting by key removes the one parameter with the key, if there is one and the map is on. */
  lemma DeleteKeySound<K, V>(v: View<K, V>, k: K)
    requires Sound(v)
    ensures Sound(Apply(v, DeleteKey(k)))
    ensures v.enabled && Scan(v.params, k).Some? ==>
              exists i :: 0 <= i < |v.params| && v.params[i].key == Some(k) && Apply(v, DeleteKey(k)).params == Removed(v.params, i)
    ensures !v.enabled || Scan(v.params, k).None? ==> Apply(v, DeleteKey(k)) == v
    ensures v.enabled ==> forall j | 0 <= j < |Apply(v, DeleteKey(k)).params| :: Apply(v, DeleteKey(k)).params[j].key != Some(k)
  {
    if v.enabled {
      LookupIsScan(v.params, v.smap, k);
      PlaceIs(v.params, k);
      var i := ScanFinds(v.params, k);
      if k in v.smap {
        AgreeRemove(v.params, v.smap, Place(v.params, k));
      }
    }
  }

  /** Every operation keeps list and map in agreement, but for enabling the map twice. */
  lemma ApplySound<K, V>(v: View<K, V>, op: Op<K, V>)
    requires Sound(v)
    ensures Sound(Apply(v, op)) <==> !(op.Enable? && v.enabled && v.params != [])
  {
    match op
    case Add(p) => AddedSound(v, p);
    case Enable => EnabledSound(v);
    case Disable =>
    case DeleteKey(k) => DeleteKeySound(v, k);
    case DeleteAt(i) =>
      if i < |v.params| && v.enabled {
        AgreeRemove(v.params, v.smap, i);
      }
    case Clear => ClearedSound(v);
    case Assign(ps) =>
      ClearedSound(v);
      AddedAllSound(Cleared(v), ps);
  }

  /** What every operation does to the parameters, and to whether the map is on. */
  lemma ApplyDoes<K, V>(v: View<K, V>, op: Op<K, V>)
    requires Sound(v)
    ensures op.Add? ==> Apply(v, op).params == if !v.enabled || Distinct(v.params + [op.p]) then v.params + [op.p] else v.params
    ensures op.Assign? ==> Apply(v, op).params == if !v.enabled || Distinct(op.ps) then op.ps else []
    ensures op.Clear? ==> Apply(v, op).params == []
    ensures op.Enable? || op.Disable? ==> Apply(v, op).params == v.params
    ensures op.DeleteKey? && (!v.enabled || Scan(v.params, op.k).None?) ==> Apply(v, op).params == v.params
    ensures op.DeleteKey? && v.enabled && Scan(v.params, op.k).Some? ==>
              exists i :: 0 <= i < |v.params| && v.params[i].key == Some(op.k) && Apply(v, op).params == Removed(v.params, i)
    ensures op.DeleteAt? ==> Apply(v, op).params == if op.i < |v.params| then Removed(v.params, op.i) else v.params
    ensures op.Enable? ==> Apply(v, op).enabled == (v.enabled || Distinct(v.params))
    ensures op.Disable? ==> !Apply(v, op).enabled
    ensures !op.Enable? && !op.Disable? ==> Apply(v, op).enabled == v.enabled
    ensures Apply(v, op).enabled && !(op.Enable? && v.enabled && v.params != []) ==> Agree(Apply(v, op).params, Apply(v, op).smap)
    ensures !Apply(v, op).enabled ==> Apply(v, op).smap == map[]
    ensures op.Enable? && v.enabled && v.params != [] ==> Apply(v, op).smap == map[]
  {
    hide Agree;
    ApplySound(v, op);
    match op
    case Add(p) => AddedSound(v, p);
    case Enable =>
      EnabledSound(v);
      EnableKeepsParams(v);
    case Disable =>
    case DeleteKey(k) => DeleteKeySound(v, k);
    case DeleteAt(i) =>
    case Clear =>
    case Assign(ps) =>
      ClearedSound(v);
      AddedAllSound(Cleared(v), ps);
      assert [] + ps == ps;
  }

  /** A sequence of operations. */
  function Run<K(==), V>(v: View<K, V>, ops: seq<Op<K, V>>): View<K, V> {
    if ops == [] then v else Apply(Run(v, ops[..|ops| - 1]), ops[|ops| - 1])
  }

  /** The map is never enabled while it is on. */
  ghost predicate EnabledOnce<K, V>(v: View<K, V>, ops: seq<Op<K, V>>) {
    forall i | 0 <= i < |ops| && ops[i].Enable? :: !Run(v, ops[..i]).enabled
  }

  /** Over any sequence of operations that enables the map once, find(k) is what a scan of the list
      finds, and the keys stay pairwise distinct. */
  lemma {:induction false} SearchIsScan<K, V>(v: View<K, V>, ops: seq<Op<K, V>>, k: K)
    requires Sound(v) && EnabledOnce(v, ops)
    ensures Sound(Run(v, ops))
    ensures Run(v, ops).enabled ==>
              Distinct(Run(v, ops).params) && Lookup(Run(v, ops).smap, k) == Scan(Run(v, ops).params, k)
  {
    if ops != [] {
      var before := ops[..|ops| - 1];
      assert forall i | 0 <= i < |before| :: before[..i] == ops[..i];
      SearchIsScan(v, before, k);
      ApplySound(Run(v, before), ops[|ops| - 1]);
    }
    if Run(v, ops).enabled {
      LookupIsScan(Run(v, ops).params, Run(v, ops).smap, k);
    }
  }
}
