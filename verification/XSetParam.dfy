/**
  `XSetParam` as an object: a list and a search map that its methods update together.
 */
module XSetParams {
  import opened XSetParamIndex

  class XSetParam<K(==), V> {
    const pname: string
    var params: seq<XParam<K, V>>
    var smap: map<K, XParam<K, V>>
    var smapEnabled: bool

    ghost function Value(): View<K, V>
      reads this
    {
      View(params, smap, smapEnabled)
    }

    ghost predicate Valid()
      reads this
    {
      Sound(Value())
    }

    constructor (pname: string)
      ensures this.pname == pname && Value() == View([], map[], false) && Valid()
    {
      this.pname, params, smap, smapEnabled := pname, [], map[], false;
    }

    // -------------------------------------------------------------- additions

    /** add2SMap */
    method Add2SMap(i: nat) returns (r: Result)
      requires i < |params|
      modifies this`smap
      ensures r.Ok? <==> params[i].key.Some? && params[i].key.value !in old(smap)
      ensures r.Err? ==> smap == old(smap) && r == (if params[i].key.None? then Err(NoKey) else Err(Duplicate))
      ensures r.Ok? ==> smap == old(smap)[params[i].key.value := params[i]]
    {
      var key := params[i].key;
      if key.None? {
        return Err(NoKey);
      }
      if key.value in smap {
        return Err(Duplicate);
      }
      smap := smap[key.value := params[i]];
      r := Ok;
    }

    /** Into the list, and into the map when it is on; a refused parameter leaves both as they were. */
    method AddParam(param: XParam<K, V>, isT: bool) returns (r: Result)
      requires Valid()
      modifies this`params, this`smap
      ensures Valid()
      ensures r.Ok? <==> isT && (!smapEnabled || Distinct(old(params) + [param]))
      ensures params == if r.Ok? then old(params) + [param] else old(params)
      ensures r.Err? ==> smap == old(smap)
      ensures (Value(), r) == if isT then Added(old(Value()), param) else (old(Value()), Err(WrongType))
      ensures isT ==> Value() == Apply(old(Value()), Add(param))
    {
      if !isT {
        return Err(WrongType);
      }
      AddedSound(Value(), param);
      params := params + [param];
      r := Ok;
      if smapEnabled {
        r := Add2SMap(|params| - 1);
        if r.Err? {
          params := params[..|params| - 1];
        }
      }
    }

    /** A copy is added in place of the parameter that is given. */
    method AddT(t: XParam<K, V>) returns (r: Result, ghost copy: XParam<K, V>)
      requires Valid()
      modifies this`params, this`smap
      ensures Valid() && fresh(copy) && copy.key == t.key && copy.value == t.value
      ensures (Value(), r) == Added(old(Value()), copy) && Value() == Apply(old(Value()), Add(copy))
    {
      var sparam := new XParam(t.key, t.value);
      copy := sparam;
      r := AddParam(sparam, true);
    }

    method Clear()
      modifies this`params, this`smap
      requires Valid()
      ensures Valid() && params == [] && smap == map[] && Value() == Apply(old(Value()), Op.Clear)
    {
      if smapEnabled {
        smap := map[];
      }
      params := [];
    }

    // -------------------------------------------------------------- the search map

    method EnableSmap() returns (r: Result)
      requires Valid()
      modifies this`smap, this`smapEnabled
      ensures (Value(), r) == Enabled(old(Value()), 0) && Value() == Apply(old(Value()), Enable)
      ensures !old(smapEnabled) ==> Valid() && (r.Ok? <==> Distinct(params)) && smapEnabled == r.Ok?
      ensures Valid() <==> !(old(smapEnabled) && params != [])
    {
      EnabledSound(Value());
      var i := 0;
      while i < |params|
        invariant i <= |params| && params == old(params) && smapEnabled == old(smapEnabled)
        invariant Enabled(Value(), i) == Enabled(old(Value()), 0)
      {
        r := Add2SMap(i);
        if r.Err? {
          smap := map[];
          return;
        }
        i := i + 1;
      }
      smapEnabled := true;
      r := Ok;
    }

    method DisableSmap()
      modifies this`smap, this`smapEnabled
      ensures Valid() && Value() == View(old(params), map[], false) && Value() == Apply(old(Value()), Disable)
    {
      smap := map[];
      smapEnabled := false;
    }

    /** With the map on, find(k) is the one parameter whose key is k, or none. */
    method Find(k: K) returns (r: Option<XParam<K, V>>)
      requires Valid()
      ensures smapEnabled ==> r == Scan(params, k)
      ensures smapEnabled ==> forall i | 0 <= i < |params| :: params[i].key == Some(k) <==> r == Some(params[i])
      ensures !smapEnabled ==> r == None
    {
      if smapEnabled {
        LookupIsScan(params, smap, k);
      }
      r := if k in smap then Some(smap[k]) else None;
    }

    /** query with the predicate that the key is k: needs no map, and finds the same. */
    method Query(k: K) returns (r: Option<XParam<K, V>>)
      ensures r == Scan(params, k)
    {
      var i := 0;
      while i < |params|
        invariant i <= |params| && Scan(params[i..], k) == Scan(params, k)
      {
        if params[i].key == Some(k) {
          return Some(params[i]);
        }
        i := i + 1;
      }
      r := None;
    }

    // -------------------------------------------------------------- deletions

    /** std::find, by address. */
    method PlaceOf(p: XParam<K, V>) returns (i: nat)
      ensures i <= |params| && (forall j | 0 <= j < i :: params[j] != p)
      ensures i < |params| ==> params[i] == p
    {
      i := 0;
      while i < |params| && params[i] != p
        invariant i <= |params| && forall j | 0 <= j < i :: params[j] != p
      {
        i := i + 1;
      }
    }

    /** Removes the parameter with the key from list and map, and gives it back. */
    method DelSoft(k: K) returns (r: Option<XParam<K, V>>)
      requires Valid()
      modifies this`params, this`smap
      ensures Valid() && Value() == Apply(old(Value()), DeleteKey(k))
      ensures r == if smapEnabled then Scan(old(params), k) else None
      ensures r.None? ==> Value() == old(Value())
      ensures r.Some? ==> Scan(params, k).None?
                          && exists i :: 0 <= i < |old(params)| && old(params)[i] == r.value && params == Removed(old(params), i)
    {
      DeleteKeySound(Value(), k);
      if k !in smap {
        if smapEnabled {
          LookupIsScan(params, smap, k);
        }
        return None;
      }
      LookupIsScan(params, smap, k);
      PlaceIs(params, k);
      var i := PlaceOf(smap[k]);
      KeyPlace(params, smap, k, i);
      r := Some(smap[k]);
      params := params[..i] + params[i + 1..];
      smap := smap - {k};
      ghost var j := ScanFinds(params, k);
    }

    /** Removes the parameter at a place from list and map. */
    method DelSoftAt(i: nat) returns (p: XParam<K, V>)
      requires Valid() && i < |params|
      modifies this`params, this`smap
      ensures Valid() && Value() == Apply(old(Value()), DeleteAt(i))
      ensures p == old(params)[i] && params == Removed(old(params), i)
    {
      ApplySound(Value(), DeleteAt(i));
      if smapEnabled {
        smap := smap - {params[i].key.value};
      }
      p := params[i];
      params := params[..i] + params[i + 1..];
    }

    // -------------------------------------------------------------- bulk assignment

    /** Becomes a copy of the other set, element by element; where that fails, and where a set is
        assigned to itself, nothing is left. */
    method Assign(xsp: XSetParam<K, V>, helperOk: bool) returns (r: Result)
      requires Valid()
      modifies this`params, this`smap
      ensures Valid()
      ensures r.Ok? <==> pname == xsp.pname && helperOk && (xsp == this || !smapEnabled || Distinct(old(xsp.params)))
      ensures r.Ok? && xsp != this ==> Copied(old(xsp.params), params)
      ensures r.Ok? && xsp == this ==> params == []
      ensures pname != xsp.pname || !helperOk ==> Value() == old(Value())
      ensures r.Err? && pname == xsp.pname && helperOk ==> params == []
    {
      if pname != xsp.pname {
        return Err(OtherName);
      }
      if !helperOk {
        return Err(HelperFailed);
      }
      ghost var source := xsp.params;
      Clear();
      ghost var copies := [];
      var i := 0;
      while i < |xsp.params|
        invariant Valid() && smapEnabled == old(smapEnabled)
        invariant xsp == this ==> i == 0 && params == []
        invariant xsp != this ==> xsp.params == source && i <= |source| && params == copies
        invariant Copied(source[..if xsp == this then 0 else i], copies)
        invariant smapEnabled ==> Distinct(copies)
      {
        assert xsp != this;
        ghost var copy;
        ghost var before := copies;
        ghost var v := Value();
        r, copy := AddT(xsp.params[i]);
        AddedSound(v, copy);
        copies := copies + [copy];
        CopiedAppend(source, before, i, copy);
        if r.Err? {
          assert v.params + [copy] == copies;
          CopiedDistinct(source[..i + 1], copies);
          DistinctTake(source, i + 1);
          Clear();
          return;
        }
        i := i + 1;
      }
      r := Ok;
      if xsp != this {
        assert source[..i] == source;
        CopiedDistinct(source, copies);
      }
    }
  }

  /** Equal keys and values, place by place. */
  ghost predicate Copied<K, V>(a: seq<XParam<K, V>>, b: seq<XParam<K, V>>) {
    |a| == |b| && forall i | 0 <= i < |a| :: a[i].key == b[i].key && a[i].value == b[i].value
  }

  lemma CopiedAppend<K, V>(source: seq<XParam<K, V>>, copies: seq<XParam<K, V>>, i: nat, copy: XParam<K, V>)
    requires i < |source| && Copied(source[..i], copies) && copy.key == source[i].key && copy.value == source[i].value
    ensures Copied(source[..i + 1], copies + [copy])
  {
  }

  lemma CopiedDistinct<K, V>(a: seq<XParam<K, V>>, b: seq<XParam<K, V>>)
    requires Copied(a, b)
    ensures Distinct(a) <==> Distinct(b)
  {
  }

  lemma DistinctTake<K, V>(a: seq<XParam<K, V>>, i: nat)
    requires i <= |a|
    ensures Distinct(a) ==> Distinct(a[..i])
  {
  }

  /** The parameter that the map names stands where the first one with the key does. */
  lemma KeyPlace<K, V>(ps: seq<XParam<K, V>>, m: map<K, XParam<K, V>>, k: K, i: nat)
    requires Agree(ps, m) && k in m && i <= |ps| && (i < |ps| ==> ps[i] == m[k])
    requires forall j | 0 <= j < i :: ps[j] != m[k]
    ensures i < |ps| && i == Place(ps, k)
  {
    LookupIsScan(ps, m, k);
    PlaceIs(ps, k);
    var j := ScanFinds(ps, k);
  }
}
