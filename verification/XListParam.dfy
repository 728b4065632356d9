/**
  `XListParam`: an `XList` of parameters with a search map whose values are counted iterators.
 */
module XListParams {
  import opened XListProtocol
  import opened XListInvariant
  import opened XListCounts
  import opened XListMemory
  import opened XListDrain
  import opened XListShapeSteps
  import opened XListRefinement
  import opened XListSequential
  import opened XLists
  import opened XListSlots
  import Index = XSetParamIndex

  predicate HasKey<K(==), V>(c: Slot<Index.XParam<K, V>>, k: K) {
    c.Data? && c.value.key == Index.Some(k)
  }

  predicate HasSomeKey<K, V>(c: Slot<Index.XParam<K, V>>) {
    c.Data? && c.value.key.Some?
  }

  /** All of the nodes have keys, and no two the same. */
  ghost predicate KeysDistinct<K, V>(nodes: seq<XListNode<Index.XParam<K, V>>>, q: seq<nat>) {
    && (forall j | 0 <= j < |q| :: q[j] < |nodes| && HasSomeKey(nodes[q[j]].slot))
    && forall i, j | 0 <= i < j < |q| :: nodes[q[i]].slot.value.key != nodes[q[j]].slot.value.key
  }

  class XListParam<K(==), V> {
    const params: XList<Index.XParam<K, V>>
    const defaultKey: K  // what a key variable holds when no key is put into it
    var smap: map<K, XListIterator<Index.XParam<K, V>>>
    var smapEnabled: bool

    ghost predicate ListOK()
      reads params, params.nodes, params.iters
    {
      params.Valid() && WF(params.model) && Calm(params.model)
    }

    /** The nodes of the list, in order. */
    ghost function Listed(): seq<nat>
      reads params
    {
      Content(params.model)
    }

    ghost function Elements(): seq<Slot<Index.XParam<K, V>>>
      reads params
    {
      Slots(params.nodes, Listed())
    }

    /** The iterator stands on one of the nodes, and that node has the key. */
    ghost predicate EntryFor(k: K, it: XListIterator<Index.XParam<K, V>>, q: seq<nat>)
      reads params, it
    {
      params.HoldsIterator(it) && it.node != null && params.Holds(it.node) && it.node.id in q && HasKey(it.node.slot, k)
    }

    ghost predicate EntriesIn(q: seq<nat>)
      reads this, params, params.iters, smap.Values
    {
      forall k | k in smap :: EntryFor(k, smap[k], q)
    }

    /** The node is found under its key. */
    ghost predicate Indexed(x: nat)
      reads this, params, params.iters
    {
      && x < |params.nodes| && HasSomeKey(params.nodes[x].slot)
      && params.nodes[x].slot.value.key.value in smap
      && params.HoldsIterator(smap[params.nodes[x].slot.value.key.value])
      && smap[params.nodes[x].slot.value.key.value].node == params.nodes[x]
    }

    /** The node is the one listed node with the key, or there is none. */
    ghost predicate OnlyHolder(k: K, nd: XListNode?<Index.XParam<K, V>>)
      reads params
    {
      forall j | 0 <= j < |Listed()| ::
        Listed()[j] < |params.nodes| && (HasKey(params.nodes[Listed()[j]].slot, k) <==> nd == params.nodes[Listed()[j]])
    }

    ghost predicate AllIndexed(q: seq<nat>)
      reads this, params, params.iters
    {
      forall j | 0 <= j < |q| :: Indexed(q[j])
    }

    ghost predicate IndexOK()
      reads this, params, params.iters, smap.Values
    {
      EntriesIn(Listed()) && if smapEnabled then AllIndexed(Listed()) else smap == map[]
    }

    ghost predicate Valid()
      reads this, params, params.nodes, params.iters, smap.Values
    {
      ListOK() && IndexOK()
    }

    constructor (defaultKey: K)
      ensures Valid() && fresh(params) && fresh(params.nodes) && params.iters == []
      ensures Listed() == [] && Elements() == [] && smap == map[] && !smapEnabled
    {
      this.defaultKey, smap, smapEnabled := defaultKey, map[], false;
      params := new XList();
      new;
      CalmWF(params.model);
      assert Content(params.model) == [];
    }

    // -------------------------------------------------------------- look-up

    /** find(k) stands on the one listed parameter whose key is k, or at the end. */
    method Find(k: K) returns (iter: XListIterator<Index.XParam<K, V>>)
      requires Valid()
      modifies params`model, params`iters, params.nodes
      ensures Valid() && fresh(iter) && params.HoldsIterator(iter) && iter.node != null
      ensures Listed() == old(Listed()) && params.nodes == old(params.nodes)
      ensures iter.node != params.sentinel ==>
                params.Holds(iter.node) && iter.node.id in Listed() && HasKey(iter.node.slot, k)
      ensures smapEnabled ==> OnlyHolder(k, iter.node)
      ensures !smapEnabled ==> iter.node == params.sentinel
    {
      hide Calm, Content, IndexOK, XList.Valid;
      iter := params.NewIterator();
      IndexKept();
      EntryHere(k);
      if k in smap {
        params.Assign(iter, smap[k]);
      } else {
        params.End(iter);
      }
      IndexKept();
      FoundFacts(k, iter.node);
    }

    /** Iterator operations that leave the map's own iterators alone leave its entries sound. */
    twostate lemma EntriesKept(q: seq<nat>)
      requires old(EntriesIn(q)) && smap == old(smap) && params.nodes == old(params.nodes)
      requires |old(params.iters)| <= |params.iters| && params.iters[..|old(params.iters)|] == old(params.iters)
      requires forall k | k in smap :: smap[k].node == old(smap[k].node)
      ensures EntriesIn(q)
    {
      forall k | k in smap ensures EntryFor(k, smap[k], q) {
        assert old(EntryFor(k, smap[k], q));
        assert params.iters[smap[k].id] == params.iters[..|old(params.iters)|][smap[k].id];
      }
    }

    twostate lemma IndexKept()
      requires old(IndexOK()) && smap == old(smap) && smapEnabled == old(smapEnabled)
      requires params.nodes == old(params.nodes) && Listed() == old(Listed())
      requires |old(params.iters)| <= |params.iters| && params.iters[..|old(params.iters)|] == old(params.iters)
      requires forall k | k in smap :: smap[k].node == old(smap[k].node)
      ensures IndexOK()
    {
      hide Content;
      EntriesKept(Listed());
      if smapEnabled {
        IndexedKept(Listed());
      }
    }

    /** Nodes stay indexed while the entries of the map stay where they are. */
    twostate lemma IndexedKept(q: seq<nat>)
      requires old(AllIndexed(q)) && params.nodes == old(params.nodes)
      requires |old(params.iters)| <= |params.iters| && params.iters[..|old(params.iters)|] == old(params.iters)
      requires forall k | k in old(smap) :: k in smap && smap[k] == old(smap)[k] && smap[k].node == old(smap[k].node)
      ensures AllIndexed(q)
    {
      forall j | 0 <= j < |q| ensures Indexed(q[j]) {
        assert old(Indexed(q[j]));
        var k := params.nodes[q[j]].slot.value.key.value;
        assert params.iters[smap[k].id] == params.iters[..|old(params.iters)|][smap[k].id];
      }
    }

    lemma EntryHere(k: K)
      requires IndexOK()
      ensures k in smap ==> EntryFor(k, smap[k], Listed())
    {
    }

    /** Where a look-up in the map ends. */
    lemma FoundFacts(k: K, nd: XListNode<Index.XParam<K, V>>)
      requires ListOK() && IndexOK() && nd == if k in smap && smap[k].node != null then smap[k].node else params.sentinel
      ensures k !in smap ==> nd == params.sentinel
      ensures nd != params.sentinel ==> params.Holds(nd) && nd.id in Listed() && HasKey(nd.slot, k)
      ensures smapEnabled ==> OnlyHolder(k, nd)
      ensures !smapEnabled ==> nd == params.sentinel
    {
      hide Calm, Content;
      if smapEnabled {
        forall j | 0 <= j < |Listed()|
          ensures Listed()[j] < |params.nodes| && (HasKey(params.nodes[Listed()[j]].slot, k) <==> nd == params.nodes[Listed()[j]])
        {
          assert Indexed(Listed()[j]);
          assert Listed()[j] in Listed();
          ContentMembers(params.model, Listed()[j]);
          params.SentinelHeld();
          assert k in smap ==> EntryFor(k, smap[k], Listed());
          assert Below(Listed()[j], |params.nodes|);
        }
      }
    }

    // -------------------------------------------------------------- additions

    /** add2SMap: the map's own iterator is assigned the place of the parameter. */
    method Add2SMap(iter: XListIterator<Index.XParam<K, V>>, ghost q: seq<nat>) returns (r: Index.Result)
      requires ListOK() && EntriesIn(q) && params.HoldsIterator(iter)
      requires iter.node != null && params.Holds(iter.node) && iter.node.slot.Data?
      modifies this`smap, params`model, params`iters, params.nodes
      ensures ListOK() && Listed() == old(Listed()) && SameNodes(old(params.model), params.model)
      ensures |old(params.iters)| <= |params.iters| && params.iters[..|old(params.iters)|] == old(params.iters)
      ensures r.Ok? <==> HasSomeKey(iter.node.slot) && iter.node.slot.value.key.value !in old(smap)
      ensures r.Err? ==> smap == old(smap) && params.model == old(params.model) && params.iters == old(params.iters)
      ensures r.Ok? ==> var k := iter.node.slot.value.key.value;
                k in smap && smap == old(smap)[k := smap[k]] && fresh(smap[k]) && smap[k].node == iter.node
      ensures EntriesIn(if r.Ok? then q + [iter.node.id] else q)
    {
      hide Calm, Content, SameNodes, Enabled, Step, XList.Valid;
      ghost var m0 := params.model;
      SameNodesSelf(m0);
      var key := iter.node.slot.value.key;
      if key.None? {
        return Index.Err(Index.NoKey);
      }
      if key.value in smap {
        return Index.Err(Index.Duplicate);
      }
      var entry := params.NewIterator();
      ghost var m1 := params.model;
      params.Assign(entry, iter);
      SameNodesStill(m0, m1, params.model);
      EntriesKept(q);
      assert EntryFor(key.value, entry, q + [iter.node.id]);
      smap := smap[key.value := entry];
      r := Index.Ok;
    }

    /** addParam: into list and map, or, after the node has been unlinked again, into neither. */
    method AddParam(param: Index.XParam<K, V>, isT: bool) returns (r: Index.Result)
      requires Valid()
      modifies this`smap, params`model, params`nodes, params`iters, params.nodes
      ensures Valid()
      ensures r.Ok? <==> isT && (!smapEnabled || (param.key.Some? && param.key.value !in old(smap)))
      ensures Elements() == if r.Ok? then old(Elements()) + [Data(param)] else old(Elements())
      ensures r.Err? ==> smap == old(smap)
      ensures r.Ok? && smapEnabled ==> smap.Keys == old(smap).Keys + {param.key.value}
      ensures Listed() == if r.Ok? then old(Listed()) + [|old(params.nodes)|] else old(Listed())
      ensures |old(params.nodes)| <= |params.nodes| && params.nodes[..|old(params.nodes)|] == old(params.nodes)
      ensures forall n | |old(params.nodes)| <= n < |params.nodes| :: fresh(params.nodes[n])
      ensures |old(params.iters)| <= |params.iters| && params.iters[..|old(params.iters)|] == old(params.iters)
      ensures forall k | k in smap :: (k in old(smap) && smap[k] == old(smap)[k]) || fresh(smap[k])
    {
      hide Calm, Content, IndexOK, Slots, EntriesIn, AllIndexed;
      if !isT {
        return Index.Err(Index.WrongType);
      }
      ghost var q := Listed();
      PushNode(param);
      if smapEnabled {
        r := IndexLast(q, |params.nodes| - 1);
      } else {
        NotIndexed();
        r := Index.Ok;
      }
    }

    method PushNode(param: Index.XParam<K, V>)
      requires Valid()
      modifies params`model, params`nodes, params.nodes
      ensures ListOK() && params.iters == old(params.iters) && |params.nodes| > 0
      ensures params.nodes == old(params.nodes) + [params.nodes[|params.nodes| - 1]] && fresh(params.nodes[|params.nodes| - 1])
      ensures Listed() == old(Listed()) + [|params.nodes| - 1] && Within(old(Listed()), |params.nodes| - 1)
      ensures EntriesIn(old(Listed())) && if smapEnabled then AllIndexed(old(Listed())) else smap == map[]
      ensures params.nodes[|params.nodes| - 1].slot == Data(param) && params.model.nodes[0].prev == |params.nodes| - 1
      ensures Elements() == old(Elements()) + [Data(param)] && Slots(params.nodes, old(Listed())) == old(Elements())
    {
      hide Calm, Content, IndexOK, Slots, EntriesIn, AllIndexed;
      ghost var nodes, q := params.nodes, Listed();
      ListedFacts(params.model);
      params.PushBack(param);
      CalmWF(params.model);
      PushKept();
      LastIsNew();
      SlotsAppended(nodes, params.nodes, q);
      SlotsGrow(nodes, params.nodes, q);
    }

    /** A new last node leaves the entries sound and the older nodes indexed. */
    twostate lemma PushKept()
      requires old(IndexOK()) && smap == old(smap) && smapEnabled == old(smapEnabled)
      requires |params.nodes| == |old(params.nodes)| + 1 && params.nodes[..|old(params.nodes)|] == old(params.nodes)
      requires Listed() == old(Listed()) + [|old(params.nodes)|] && params.iters == old(params.iters)
      requires forall k | k in smap :: smap[k].node == old(smap[k].node)
      ensures EntriesIn(old(Listed())) && if smapEnabled then AllIndexed(old(Listed())) else smap == map[]
    {
      hide Content, Calm;
      forall k | k in smap ensures EntryFor(k, smap[k], old(Listed())) {
        assert old(EntryFor(k, smap[k], Listed()));
        assert params.nodes[smap[k].node.id] == params.nodes[..|old(params.nodes)|][smap[k].node.id];
      }
      if smapEnabled {
        forall j | 0 <= j < |old(Listed())| ensures Indexed(old(Listed())[j]) {
          assert old(Indexed(Listed()[j]));
          assert params.nodes[old(Listed())[j]] == params.nodes[..|old(params.nodes)|][old(Listed())[j]];
        }
      }
    }

    lemma LastIsNew()
      requires ListOK() && params.sentinel.prev == params.nodes[|params.nodes| - 1]
      ensures params.model.nodes[0].prev == |params.nodes| - 1
    {
      params.SentinelHeld();
      params.Neighbours(params.sentinel);
      assert Below(|params.nodes| - 1, |params.nodes|);
    }

    /** The last node, not yet indexed, is put into the map or unlinked again. */
    method IndexLast(ghost q: seq<nat>, ghost n: nat) returns (r: Index.Result)
      requires ListOK() && EntriesIn(q) && AllIndexed(q) && smapEnabled
      requires n < |params.nodes| && Listed() == q + [n] && Within(q, n)
      requires params.model.nodes[0].prev == n && params.nodes[n].slot.Data?
      modifies this`smap, params`model, params`iters, params.nodes
      ensures ListOK() && IndexOK() && params.nodes == old(params.nodes)
      ensures r.Ok? <==> HasSomeKey(params.nodes[n].slot) && params.nodes[n].slot.value.key.value !in old(smap)
      ensures Listed() == if r.Ok? then old(Listed()) else q
      ensures r.Err? ==> smap == old(smap)
      ensures r.Ok? ==> smap.Keys == old(smap).Keys + {params.nodes[n].slot.value.key.value}
      ensures |old(params.iters)| <= |params.iters| && params.iters[..|old(params.iters)|] == old(params.iters)
      ensures forall k | k in smap :: (k in old(smap) && smap[k] == old(smap)[k]) || fresh(smap[k])
    {
      hide Calm, Content, EntriesIn, SameNodes, Enabled, Step, AllIndexed, Indexed, IndexOK;
      ghost var m0 := params.model;
      var iter := NewAtLast();
      SameNodesPrev(m0, params.model, 0);
      EntriesKept(q);
      r := Add2SMap(iter, q);
      IndexedKept(q);
      if r.Ok? {
        AllWithLast(q, n);
        return;
      }
      PopBack(q, n, iter);
    }

    /** --end() */
    method NewAtLast() returns (iter: XListIterator<Index.XParam<K, V>>)
      requires ListOK()
      modifies params`model, params`iters, params.nodes
      ensures ListOK() && fresh(iter) && params.HoldsIterator(iter) && params.iters == old(params.iters) + [iter]
      ensures params.Holds(iter.node) && iter.node.id == old(params.model).nodes[0].prev
      ensures Listed() == old(Listed()) && SameNodes(old(params.model), params.model)
    {
      hide Calm, Content, SameNodes, Enabled, Step;
      ghost var m0 := params.model;
      iter := params.NewIterator();
      ghost var m1 := params.model;
      params.SentinelHeld();
      SameNodesPrev(m0, m1, 0);
      params.ToLast(iter);
      SameNodesStill(m0, m1, params.model);
    }

    /** The parameter that was refused leaves the list again. */
    method PopBack(ghost q: seq<nat>, ghost n: nat, iter: XListIterator<Index.XParam<K, V>>)
      requires ListOK() && EntriesIn(q) && AllIndexed(q) && smapEnabled
      requires Listed() == q + [n] && Within(q, n) && params.model.nodes[0].prev == n
      requires params.HoldsIterator(iter) && iter.node != null && params.Holds(iter.node) && iter !in smap.Values
      modifies params`model, params`iters, params.nodes, iter
      ensures ListOK() && IndexOK() && params.nodes == old(params.nodes) && Listed() == q
      ensures |old(params.iters)| <= |params.iters| && params.iters[..|old(params.iters)|] == old(params.iters)
    {
      hide Calm, Content, EntriesIn, SameNodes, Enabled, Step, AllIndexed, Indexed;
      ghost var m0 := params.model;
      params.Next(iter);
      SameNodesPrev(m0, params.model, 0);
      var last := NewAtLast();
      UnlinkLast(q, n, last);
      EntriesKept(q);
      IndexedKept(q);
    }

    method UnlinkLast(ghost q: seq<nat>, ghost n: nat, last: XListIterator<Index.XParam<K, V>>)
      requires ListOK() && Listed() == q + [n] && Within(q, n)
      requires params.HoldsIterator(last) && last.node != null && params.Holds(last.node) && last.node.id == n
      modifies params`model, params.nodes
      ensures ListOK() && Listed() == q
    {
      hide Calm, Content, Without, Prepare;
      assert n in Listed();
      ContentMembers(params.model, n);
      ListedUnmarked(params.model, n);
      params.SentinelHeld();
      params.Neighbours(last.node);
      var ok := params.XErasePrepare(last);
      CalmWF(params.model);
      WithoutLast(q, n);
    }

    lemma AllWithLast(q: seq<nat>, n: nat)
      requires AllIndexed(q) && EntriesIn(q + [n]) && Listed() == q + [n] && smapEnabled
      requires n < |params.nodes| && HasSomeKey(params.nodes[n].slot) && params.nodes[n].slot.value.key.value in smap
      requires smap[params.nodes[n].slot.value.key.value].node == params.nodes[n]
      ensures IndexOK()
    {
      hide Content;
      OneMoreIndexed(q, n);
    }

    lemma NotIndexed()
      requires !smapEnabled && smap == map[]
      ensures IndexOK()
    {
    }

    // -------------------------------------------------------------- the search map

    /** clearSMap: every iterator of the map lets its node go. */
    method ClearSMap(ghost q: seq<nat>)
      requires ListOK() && EntriesIn(q)
      modifies this`smap, params`model, params.nodes, smap.Values
      ensures ListOK() && Listed() == old(Listed()) && smap == map[] && SameNodes(old(params.model), params.model)
      ensures forall k | k in old(smap) :: old(smap)[k].node == null
    {
      hide Calm, Content, SameNodes, Enabled, Step, EntriesIn, WF, XList.Valid;
      ghost var m0 := params.model;
      SameNodesSelf(m0);
      while smap != map[]
        invariant ListOK() && EntriesIn(q) && Listed() == old(Listed()) && SameNodes(m0, params.model)
        invariant forall k | k in smap :: k in old(smap) && smap[k] == old(smap)[k]
        invariant forall k | k in old(smap) && k !in smap :: old(smap)[k].node == null
        decreases |smap|
      {
        ghost var m1 := params.model;
        var k :| k in smap;
        EntriesDiffer(q, k);
        EraseEntry(k, q);
        SameNodesStill(m0, m1, params.model);
      }
    }

    /** Erases one entry of the map; its iterator lets its node go. */
    method EraseEntry(k: K, ghost q: seq<nat>)
      requires ListOK() && EntriesIn(q) && k in smap
      modifies this`smap, params`model, params.nodes, smap[k]
      ensures ListOK() && EntriesIn(q) && Listed() == old(Listed()) && SameNodes(old(params.model), params.model)
      ensures smap == old(smap) - {k} && old(smap)[k].node == null
      ensures forall l | l in smap :: smap[l] != old(smap)[k] && smap[l].node == old(smap[l].node)
      ensures forall n | 0 <= n < |old(params.model).nodes| ::
                n < |params.model.nodes| && params.model.nodes[n].erasing == old(params.model).nodes[n].erasing
    {
      hide Calm, Content, SameNodes, Enabled, Step, WF, XList.Valid;
      ghost var m0, i := params.model, smap[k].id;
      EntriesDiffer(q, k);
      params.Fini(smap[k]);
      FiniMarksAll(m0, i);
      smap := smap - {k};
    }

    /** Entries of different keys are different iterators. */
    lemma EntriesDiffer(q: seq<nat>, k: K)
      requires EntriesIn(q) && k in smap
      ensures params.HoldsIterator(smap[k]) && smap[k].node != null
      ensures forall l | l in smap && l != k :: smap[l] != smap[k] && smap[l].node != smap[k].node
    {
      assert EntryFor(k, smap[k], q);
      forall l | l in smap && l != k ensures smap[l] != smap[k] && smap[l].node != smap[k].node {
        assert EntryFor(l, smap[l], q);
      }
    }

    /** One pass of the loop of enable_smap: the node joins those that are indexed, or is refused. */
    method IndexHere(iter: XListIterator<Index.XParam<K, V>>, ghost q: seq<nat>) returns (r: Index.Result)
      requires ListOK() && EntriesIn(q) && AllIndexed(q) && params.HoldsIterator(iter)
      requires iter.node != null && params.Holds(iter.node) && iter.node.slot.Data?
      modifies this`smap, params`model, params`iters, params.nodes
      ensures ListOK() && Listed() == old(Listed()) && params.HoldsIterator(iter)
      ensures SameNodes(old(params.model), params.model)
      ensures r.Ok? <==> HasSomeKey(iter.node.slot) && iter.node.slot.value.key.value !in old(smap)
      ensures var known := if r.Ok? then q + [iter.node.id] else q; EntriesIn(known) && AllIndexed(known)
      ensures r.Err? ==> smap == old(smap)
      ensures forall k | k in smap :: (k in old(smap) && smap[k] == old(smap)[k]) || fresh(smap[k])
    {
      hide Calm, Content, EntriesIn, AllIndexed, SameNodes, Enabled, Step;
      SameNodesSelf(params.model);
      r := Add2SMap(iter, q);
      IndexedKept(q);
      if r.Ok? {
        OneMoreIndexed(q, iter.node.id);
      }
    }

    lemma OneMoreIndexed(q: seq<nat>, n: nat)
      requires AllIndexed(q) && EntriesIn(q + [n])
      requires n < |params.nodes| && HasSomeKey(params.nodes[n].slot) && params.nodes[n].slot.value.key.value in smap
      requires smap[params.nodes[n].slot.value.key.value].node == params.nodes[n]
      ensures AllIndexed(q + [n])
    {
      var k := params.nodes[n].slot.value.key.value;
      assert EntryFor(k, smap[k], q + [n]);
      assert Indexed(n);
    }

    /** enable_smap: indexes the whole list, or, at the first parameter without a key or with one that is
        taken, empties the map.  With the map off it succeeds exactly if all keys are there and distinct;
        list and map disagree afterwards exactly if it was on and the list not empty. */
    method EnableSmap() returns (r: Index.Result)
      requires Valid()
      modifies this`smap, this`smapEnabled, params`model, params`iters, params.nodes, smap.Values
      ensures ListOK() && Listed() == old(Listed()) && params.nodes == old(params.nodes)
      ensures smapEnabled == (old(smapEnabled) || r.Ok?) && (r.Err? ==> smap == map[])
      ensures !old(smapEnabled) ==> IndexOK() && (r.Ok? <==> KeysDistinct(params.nodes, Listed()))
      ensures IndexOK() <==> !(old(smapEnabled) && Listed() != [])
    {
      hide Calm, Content, EntriesIn, AllIndexed, IndexOK, SameNodes, Enabled, Step, WF, KeysDistinct;
      ghost var on, before := smapEnabled, Listed();
      BeforeEnable();
      r := IndexWalk(on, before);
      if r.Err? {
        Emptied();
        return;
      }
      TurnOn();
      r := Index.Ok;
    }

    /** What enabling starts from. */
    lemma BeforeEnable()
      requires IndexOK()
      ensures var q := if smapEnabled then Listed() else []; EntriesIn(q) && AllIndexed(q)
    {
    }

    /** The loop of enable_smap, with `on` for a map that is on: then nothing but an empty list is indexed. */
    method IndexWalk(ghost on: bool, ghost before: seq<nat>) returns (r: Index.Result)
      requires ListOK() && before == Listed() && on == smapEnabled
      requires EntriesIn(if on then before else []) && AllIndexed(if on then before else [])
      modifies this`smap, params`model, params`iters, params.nodes, smap.Values
      ensures ListOK() && Listed() == before && params.nodes == old(params.nodes)
      ensures r.Ok? ==> EntriesIn(before) && AllIndexed(before)
      ensures r.Err? ==> smap == map[] && before != []
      ensures on ==> (r.Ok? <==> before == [])
      ensures !on ==> (r.Ok? <==> KeysDistinct(params.nodes, before))
    {
      hide Calm, Content, EntriesIn, AllIndexed, IndexOK, SameNodes, Enabled, Step, WF, KeysDistinct;
      ghost var m0, q: seq<nat> := params.model, [];
      var iter := FirstIterator(if on then before else []);
      while iter.node != params.sentinel
        invariant ListOK() && Listed() == before && SameNodes(m0, params.model)
        invariant params.HoldsIterator(iter) && params.Holds(iter.node) && IsLinked(m0, iter.node.id)
        invariant q == Passed(m0, iter.node.id) && (on ==> q == [])
        invariant EntriesIn(if on then before else q) && AllIndexed(if on then before else q)
        invariant fresh(iter) && iter !in smap.Values
        invariant forall k | k in smap :: (k in old(smap) && smap[k] == old(smap)[k]) || fresh(smap[k])
        decreases if iter.node == params.sentinel then 0 else |m0.nodes| - iter.node.id
      {
        ghost var p := iter.node.id;
        DataNode(iter.node);
        r := WalkOne(iter, m0, on, q);
        if r.Err? {
          return;
        }
        q := q + [p];
      }
      params.SentinelHeld();
      ContentPassed(m0);
      ListedFacts(m0);
      IndexedDistinct(before);
      r := Index.Ok;
    }

    /** One pass: indexes the iterator's node and moves on, or empties the map. */
    method WalkOne(iter: XListIterator<Index.XParam<K, V>>, ghost m0: State, ghost on: bool, ghost q: seq<nat>)
        returns (r: Index.Result)
      requires ListOK() && SameNodes(m0, params.model) && Calm(m0) && WF(m0) && Content(m0) == Listed()
      requires params.HoldsIterator(iter) && iter.node != null && params.Holds(iter.node) && iter !in smap.Values
      requires IsLinked(m0, iter.node.id) && iter.node.id > 0 && iter.node.slot.Data?
      requires q == Passed(m0, iter.node.id) && (on ==> q == [])
      requires EntriesIn(if on then Listed() else q) && AllIndexed(if on then Listed() else q)
      modifies this`smap, params`model, params`iters, params.nodes, smap.Values, iter
      ensures ListOK() && Listed() == old(Listed()) && params.nodes == old(params.nodes)
      ensures r.Err? ==> smap == map[] && Listed() != [] && (!on ==> !KeysDistinct(params.nodes, Listed()))
      ensures r.Ok? ==>
                && !on && params.HoldsIterator(iter) && params.Holds(iter.node) && iter !in smap.Values
                && SameNodes(m0, params.model) && IsLinked(m0, iter.node.id)
                && (iter.node.id == 0 || old(iter.node.id) < iter.node.id)
                && q + [old(iter.node.id)] == Passed(m0, iter.node.id)
                && EntriesIn(q + [old(iter.node.id)]) && AllIndexed(q + [old(iter.node.id)])
      ensures forall k | k in smap :: (k in old(smap) && smap[k] == old(smap)[k]) || fresh(smap[k])
    {
      hide Calm, Content, EntriesIn, AllIndexed, IndexOK, SameNodes, Enabled, Step, WF, KeysDistinct, HasSomeKey, XList.Valid;
      ghost var p, m1, rest := iter.node.id, params.model, Range(m0.nodes, iter.node.id + 1, |m0.nodes|);
      ghost var before := Listed();
      ListedSplit(m0, p);
      assert before == q + [p] + rest;
      AlreadyThere(before, q, p, rest, on);
      r := IndexHere(iter, if on then before else q);
      SameNodesStill(m0, m1, params.model);
      if r.Err? {
        ClearSMap(if on then before else q);
        return;
      }
      WalkAdvances(m0, p);
      Advance(iter, m0, q + [p]);
    }

    method FirstIterator(ghost q: seq<nat>) returns (iter: XListIterator<Index.XParam<K, V>>)
      requires ListOK() && EntriesIn(q) && AllIndexed(q)
      modifies params`model, params`iters, params.nodes
      ensures ListOK() && Listed() == old(Listed()) && EntriesIn(q) && AllIndexed(q)
      ensures fresh(iter) && iter !in smap.Values && params.HoldsIterator(iter) && params.Holds(iter.node)
      ensures SameNodes(old(params.model), params.model) && IsLinked(old(params.model), iter.node.id)
      ensures Passed(old(params.model), iter.node.id) == [] && params.nodes == old(params.nodes)
    {
      hide Calm, Content, EntriesIn, AllIndexed, SameNodes, Enabled, Step, WF;
      ghost var m0 := params.model;
      iter := params.NewIterator();
      ghost var m1 := params.model;
      params.SentinelHeld();
      params.Neighbours(params.sentinel);
      params.Begin(iter);
      SameNodesStill(m0, m1, params.model);
      SameNodesAt(m0, m1, 0);
      WalkStarts(m0);
      EntriesKept(q);
      IndexedKept(q);
    }

    method Advance(iter: XListIterator<Index.XParam<K, V>>, ghost m0: State, ghost q: seq<nat>)
      requires ListOK() && EntriesIn(q) && AllIndexed(q) && params.HoldsIterator(iter) && iter !in smap.Values
      requires iter.node != null && params.Holds(iter.node) && SameNodes(m0, params.model) && iter.node.id < |m0.nodes|
      modifies params`model, params.nodes, iter
      ensures ListOK() && Listed() == old(Listed()) && EntriesIn(q) && AllIndexed(q) && params.HoldsIterator(iter)
      ensures old(iter.node.id) < |m0.nodes| && params.Holds(iter.node)
      ensures iter.node.id == m0.nodes[old(iter.node.id)].next && SameNodes(m0, params.model)
    {
      hide Calm, Content, EntriesIn, AllIndexed, SameNodes, Enabled, Step, WF;
      ghost var m1 := params.model;
      params.Neighbours(iter.node);
      SameNodesAt(m0, m1, iter.node.id);
      params.Next(iter);
      SameNodesStill(m0, m1, params.model);
      EntriesKept(q);
      IndexedKept(q);
    }

    lemma DataNode(nd: XListNode<Index.XParam<K, V>>)
      requires params.Valid() && params.Holds(nd)
      ensures nd != params.sentinel ==> nd.slot.Data? && nd.id > 0
    {
      params.SentinelHeld();
      assert Below(nd.id, |params.nodes|);
    }

    /** When a node is refused: with the map on it is there already, and otherwise the keys are not distinct. */
    lemma AlreadyThere(before: seq<nat>, q: seq<nat>, p: nat, rest: seq<nat>, on: bool)
      requires params.Valid() && before == q + [p] + rest && p < |params.nodes|
      requires if on then AllIndexed(before) else EntriesIn(q)
      ensures var c := params.nodes[p].slot;
              on ==> HasSomeKey(c) && c.value.key.value in smap
      ensures var c := params.nodes[p].slot;
              !on && (!HasSomeKey(c) || c.value.key.value in smap) ==> !KeysDistinct(params.nodes, before)
    {
      assert before[|q|] == p;
      if on {
        assert Indexed(before[|q|]);
      } else if HasSomeKey(params.nodes[p].slot) && params.nodes[p].slot.value.key.value in smap {
        var k := params.nodes[p].slot.value.key.value;
        assert EntryFor(k, smap[k], q);
        var i :| 0 <= i < |q| && q[i] == smap[k].node.id;
        assert before[i] == q[i];
      }
    }

    /** Nodes that are indexed have distinct keys. */
    lemma IndexedDistinct(q: seq<nat>)
      requires params.Valid() && AllIndexed(q) && forall i, j | 0 <= i < j < |q| :: q[i] < q[j]
      ensures KeysDistinct(params.nodes, q)
    {
      forall j | 0 <= j < |q| ensures q[j] < |params.nodes| && HasSomeKey(params.nodes[q[j]].slot) {
        assert Indexed(q[j]);
      }
      forall i, j | 0 <= i < j < |q|
        ensures params.nodes[q[i]].slot.value.key != params.nodes[q[j]].slot.value.key
      {
        assert Indexed(q[i]) && Indexed(q[j]);
        assert Below(q[i], |params.nodes|) && Below(q[j], |params.nodes|);
      }
    }

    /** A map that was emptied does not index a list that is not empty. */
    lemma Emptied()
      requires smap == map[] && Listed() != []
      ensures IndexOK() <==> !smapEnabled
    {
      assert smapEnabled ==> !Indexed(Listed()[0]);
    }

    method TurnOn()
      requires EntriesIn(Listed()) && AllIndexed(Listed())
      modifies this`smapEnabled
      ensures IndexOK() && smapEnabled
    {
      smapEnabled := true;
    }

    method DisableSmap()
      requires ListOK() && EntriesIn(Listed())
      modifies this`smap, this`smapEnabled, params`model, params.nodes, smap.Values
      ensures Valid() && Listed() == old(Listed()) && smap == map[] && !smapEnabled
    {
      hide Calm, Content, SameNodes;
      ClearSMap(Listed());
      smapEnabled := false;
    }

    // -------------------------------------------------------------- deletions

    /** Removes the parameter with the key from list and map; the map's count on its node is dropped,
        and the iterator that is given back stands on it, or at the end if there is none. */
    method XDelPrepareKey(k: K) returns (iter: XListIterator<Index.XParam<K, V>>)
      requires Valid()
      modifies this`smap, params`model, params`iters, params.nodes, if k in smap then {smap[k]} else {}
      ensures Valid() && fresh(iter) && params.HoldsIterator(iter) && params.Holds(iter.node) && params.nodes == old(params.nodes)
      ensures k in old(smap) ==>
                iter.node == old(smap[k].node) && HasKey(iter.node.slot, k)
                && Listed() == Without(old(Listed()), iter.node.id) && smap == old(smap) - {k} && old(smap)[k].node == null
      ensures k !in old(smap) ==> iter.node == params.sentinel && Listed() == old(Listed()) && smap == old(smap)
    {
      hide Calm, Content, IndexOK, Without, Prepare, EntriesIn, AllIndexed, SameNodes, XList.Valid;
      iter := params.NewIterator();
      IndexKept();
      if k !in smap {
        params.End(iter);
        params.SentinelHeld();
        IndexKept();
        return;
      }
      EntryHere(k);
      params.Assign(iter, smap[k]);
      IndexKept();
      UnlinkEntry(k, iter);
      smap := smap - {k};
      IndexWithout(k);
    }

    /** Unlinks the node of an entry; the entry's iterator lets go of it. */
    method UnlinkEntry(k: K, iter: XListIterator<Index.XParam<K, V>>)
      requires Valid() && k in smap && params.HoldsIterator(iter) && iter.node == smap[k].node && iter !in smap.Values
      requires iter.node != null && params.Holds(iter.node)
      modifies params`model, params.nodes, iter, smap[k]
      ensures ListOK() && iter.node == old(iter.node) && smap[k].node == null
      ensures Listed() == Without(old(Listed()), iter.node.id)
      ensures forall l | l in smap && l != k :: smap[l].node == old(smap[l].node)
      ensures HasKey(iter.node.slot, k)
    {
      hide Calm, Content, IndexOK, Without, Prepare, EntriesIn, AllIndexed, SameNodes, XList.Valid;
      EntryHere(k);
      ghost var nd, m0, marked := iter.node, params.model, iter.node.isErasing;
      params.SentinelHeld();
      params.Neighbours(nd);
      ListedIsData(nd.id);
      EntriesApart(k);
      var ok := params.XErasePrepare(iter);
      CalmWF(params.model);
      if !ok {
        MoveToEnd(iter);
      }
      ListedNode(m0, nd.id);
      params.Fini(smap[k]);
    }

    /** The key under which a parameter is looked up when it is deleted. */
    function KeyOf(p: Index.XParam<K, V>): K {
      if p.key.Some? then p.key.value else defaultKey
    }

    /** Unlinks the iterator's node, if nobody has before, after taking the entry with its key out of the
        map.  That entry is another node's exactly if the iterator's node was unlinked before: a listed
        parameter with the same key is then no longer found. */
    method XDelPrepareIter(iter: XListIterator<Index.XParam<K, V>>) returns (ok: bool)
      requires Valid() && params.HoldsIterator(iter) && iter.node != null && params.Holds(iter.node)
      requires iter.node.slot.Data? && iter.node != params.sentinel && iter !in smap.Values
      modifies this`smap, params`model, params.nodes, smap.Values
      ensures ListOK() && ok == !old(iter.node.isErasing)
      ensures Listed() == if ok then Without(old(Listed()), iter.node.id) else old(Listed())
      ensures smap == if smapEnabled then old(smap) - {KeyOf(iter.node.slot.value)} else old(smap)
      ensures smapEnabled && KeyOf(iter.node.slot.value) in old(smap) ==> old(smap)[KeyOf(iter.node.slot.value)].node == null
      ensures params.iters == old(params.iters) && params.nodes == old(params.nodes)
      ensures Valid() <==> ok || !smapEnabled || KeyOf(iter.node.slot.value) !in old(smap)
      ensures EntriesIn(Listed())
    {
      hide Calm, Content, IndexOK, Without, Prepare, EntriesIn, AllIndexed, SameNodes, Enabled, Step, XList.Valid;
      var key := KeyOf(iter.node.slot.value);
      StandsOn(iter);
      ghost var hit := smapEnabled && key in smap;
      DropEntry(key, iter.node);
      label dropped:
      ok := params.XErasePrepare(iter);
      CalmWF(params.model);
      if ok {
        if smapEnabled {
          IndexWithout(key);
        } else {
          NotIndexed();
        }
      } else if hit {
        EntriesKept@dropped(Listed());
        EntryLost(key);
      } else {
        IndexKept();
      }
      IndexedEntries();
    }

    /** An iterator stands on a listed node exactly if the node is not marked, and then the index knows it. */
    lemma StandsOn(iter: XListIterator<Index.XParam<K, V>>)
      requires Valid() && params.HoldsIterator(iter) && iter.node != null && params.Holds(iter.node)
      requires iter.node.slot.Data? && iter.node != params.sentinel
      ensures iter.node.id in Listed() <==> !iter.node.isErasing
      ensures var k := KeyOf(iter.node.slot.value);
              !iter.node.isErasing && smapEnabled ==> k in smap && smap[k].node == iter.node
      ensures !smapEnabled ==> smap == map[]
    {
      hide Calm, Content, Without;
      params.SentinelHeld();
      params.IteratorHeld(iter);
      params.Neighbours(iter.node);
      if iter.node.isErasing {
        if iter.node.id in Listed() {
          ListedNode(params.model, iter.node.id);
        }
      } else {
        IteratorListed(params.model, iter.id);
        var j :| 0 <= j < |Listed()| && Listed()[j] == iter.node.id;
        assert smapEnabled ==> Indexed(Listed()[j]);
      }
    }

    lemma IndexedEntries()
      ensures IndexOK() ==> EntriesIn(Listed())
    {
    }

    /** smap.erase(smap.find(key)) */
    method DropEntry(key: K, nd: XListNode<Index.XParam<K, V>>)
      requires Valid() && params.Holds(nd)
      modifies this`smap, params`model, params.nodes, smap.Values
      ensures ListOK() && EntriesIn(Listed()) && Listed() == old(Listed()) && nd.isErasing == old(nd.isErasing)
      ensures smap == if smapEnabled then old(smap) - {key} else old(smap)
      ensures smapEnabled && key in old(smap) ==> old(smap)[key].node == null
      ensures forall l | l in smap :: smap[l].node == old(smap[l].node)
    {
      hide Calm, Content, EntriesIn, AllIndexed, SameNodes, Enabled, Step;
      params.Neighbours(nd);
      if smapEnabled && key in smap {
        EraseEntry(key, Listed());
        params.Neighbours(nd);
      }
    }

    /** The entry that was taken out belongs to a node that is still listed. */
    twostate lemma EntryLost(k: K)
      requires old(IndexOK()) && smapEnabled && k in old(smap) && k !in smap
      requires params.nodes == old(params.nodes) && Listed() == old(Listed())
      ensures !IndexOK()
    {
      hide Content;
      assert old(EntryFor(k, smap[k], Listed()));
      var j :| 0 <= j < |Listed()| && Listed()[j] == old(smap[k].node).id;
      assert !Indexed(Listed()[j]);
    }

    /** iter = end() */
    method MoveToEnd(iter: XListIterator<Index.XParam<K, V>>)
      requires ListOK() && params.HoldsIterator(iter)
      modifies params`model, params.nodes, iter
      ensures ListOK() && iter.node == params.sentinel && Listed() == old(Listed())
    {
      hide Calm, Content;
      params.Fini(iter);
      params.End(iter);
    }

    lemma ListedHeld(x: nat)
      requires params.Valid() && x in Listed()
      ensures x < |params.nodes| && params.Holds(params.nodes[x]) && params.nodes[x].id == x
      ensures params.nodes[x] != params.sentinel && params.nodes[x].slot.Data?
    {
      ContentMembers(params.model, x);
      params.SentinelHeld();
      assert Below(x, |params.nodes|);
    }

    lemma ListedIsData(x: nat)
      requires x in Listed()
      ensures x > 0
    {
      ContentMembers(params.model, x);
    }

    /** Entries of different keys are different iterators on different nodes. */
    lemma EntriesApart(k: K)
      requires IndexOK() && k in smap
      ensures forall l | l in smap && l != k :: smap[l] != smap[k] && smap[l].node != smap[k].node
    {
      forall l | l in smap && l != k ensures smap[l] != smap[k] && smap[l].node != smap[k].node {
        assert EntryFor(k, smap[k], Listed()) && EntryFor(l, smap[l], Listed());
      }
    }

    /** Node and entry are gone together. */
    twostate lemma IndexWithout(k: K)
      requires old(IndexOK()) && smapEnabled == old(smapEnabled) && ListOK()
      requires k in old(smap) && old(smap[k].node) != null
      requires smap == old(smap) - {k} && params.nodes == old(params.nodes)
      requires |old(params.iters)| <= |params.iters| && params.iters[..|old(params.iters)|] == old(params.iters)
      requires Listed() == Without(old(Listed()), old(smap[k].node).id)
      requires forall l | l in smap :: smap[l].node == old(smap[l].node)
      ensures IndexOK()
    {
      hide Content, Without;
      EntriesWithout(k);
      if smapEnabled {
        IndexedWithout(k);
      }
    }

    twostate lemma EntriesWithout(k: K)
      requires old(EntriesIn(Listed())) && k in old(smap) && old(smap[k].node) != null
      requires smap == old(smap) - {k} && params.nodes == old(params.nodes)
      requires |old(params.iters)| <= |params.iters| && params.iters[..|old(params.iters)|] == old(params.iters)
      requires Listed() == Without(old(Listed()), old(smap[k].node).id)
      requires forall l | l in smap :: smap[l].node == old(smap[l].node)
      ensures EntriesIn(Listed())
    {
      hide Content, Without;
      var nd := old(smap[k].node);
      assert old(EntryFor(k, smap[k], Listed()));
      forall l | l in smap ensures EntryFor(l, smap[l], Listed()) {
        assert old(EntryFor(l, smap[l], Listed()));
        assert params.iters[smap[l].id] == params.iters[..|old(params.iters)|][smap[l].id];
        WithoutMember(old(Listed()), nd.id, smap[l].node.id);
      }
    }

    twostate lemma IndexedWithout(k: K)
      requires old(AllIndexed(Listed())) && ListOK()
      requires old(EntriesIn(Listed())) && k in old(smap) && old(smap[k].node) != null
      requires smap == old(smap) - {k} && params.nodes == old(params.nodes)
      requires |old(params.iters)| <= |params.iters| && params.iters[..|old(params.iters)|] == old(params.iters)
      requires Listed() == Without(old(Listed()), old(smap[k].node).id)
      requires forall l | l in smap :: smap[l].node == old(smap[l].node)
      ensures AllIndexed(Listed())
    {
      hide Content, Without, Calm;
      var nd := old(smap[k].node);
      assert old(EntryFor(k, smap[k], Listed()));
      forall j | 0 <= j < |Listed()| ensures Indexed(Listed()[j]) {
        var x := Listed()[j];
        assert x in Listed();
        WithoutMember(old(Listed()), nd.id, x);
        var i :| 0 <= i < |old(Listed())| && old(Listed())[i] == x;
        assert old(Indexed(Listed()[i]));
        var l := params.nodes[x].slot.value.key.value;
        assert params.iters[old(smap)[l].id] == params.iters[..|old(params.iters)|][old(smap)[l].id];
        assert Below(x, |params.nodes|);
      }
    }

    /** clear: prepares the first parameter for deletion until there is none; their frees are pending. */
    method Clear()
      requires Valid()
      modifies this`smap, params`model, params`iters, params.nodes, smap.Values
      ensures Valid() && Listed() == [] && smap == map[] && smapEnabled == old(smapEnabled)
      ensures forall k | k in old(smap) :: old(smap)[k].node == null
    {
      hide EntriesIn, AllIndexed, EntryFor, Calm, Content, IndexOK, SameNodes, Enabled, Step, Without, WF, XList.Valid;
      var iter := params.NewIterator();
      IndexKept();
      while true
        invariant Valid() && params.HoldsIterator(iter) && iter.node == null && fresh(iter) && iter !in smap.Values
        invariant params.nodes == old(params.nodes) && smapEnabled == old(smapEnabled)
        invariant forall k | k in smap :: k in old(smap) && smap[k] == old(smap)[k]
        invariant forall k | k in old(smap) && k !in smap :: old(smap)[k].node == null
        decreases |Listed()|
      {
        EntriesLive();
        var more := ClearFirst(iter);
        if !more {
          break;
        }
      }
      NothingIndexed();
    }

    /** A list of one. */
    lemma OnlyElement(param: Index.XParam<K, V>)
      requires params.Valid() && Elements() == [Data(param)]
      ensures |Listed()| == 1
      ensures Listed()[0] < |params.nodes| && params.nodes[Listed()[0]].slot == Data(param)
      ensures params.nodes[Listed()[0]].id == Listed()[0] && params.Holds(params.nodes[Listed()[0]])
    {
      hide Content;
      SlotsLength(params.nodes, Listed());
      var q := Listed();
      assert Slots(params.nodes, q) == Slots(params.nodes, q[..0]) + [if q[0] < |params.nodes| then params.nodes[q[0]].slot else Sentinel];
      assert Slots(params.nodes, q)[0] == Data(param);
      assert Below(q[0], |params.nodes|);
    }

    lemma EntriesLive()
      requires IndexOK()
      ensures forall k | k in smap :: smap[k].node != null
    {
      forall k | k in smap ensures smap[k].node != null {
        assert EntryFor(k, smap[k], Listed());
      }
    }

    lemma NothingIndexed()
      requires IndexOK() && Listed() == []
      ensures smap == map[]
    {
      hide Content;
      forall k ensures k !in smap {
        EntryHere(k);
      }
    }

    /** One pass of its loop. */
    method ClearFirst(iter: XListIterator<Index.XParam<K, V>>) returns (more: bool)
      requires Valid() && params.HoldsIterator(iter) && iter.node == null && iter !in smap.Values
      modifies this`smap, params`model, params.nodes, smap.Values, iter
      ensures Valid() && params.HoldsIterator(iter) && iter.node == null && iter !in smap.Values
      ensures params.nodes == old(params.nodes) && params.iters == old(params.iters)
      ensures more <==> old(Listed()) != []
      ensures if more then |Listed()| < |old(Listed())| else Listed() == []
      ensures forall k | k in smap :: k in old(smap) && smap[k] == old(smap)[k]
      ensures forall k | k in old(smap) && k !in smap :: old(smap)[k].node == null
    {
      hide EntriesIn, AllIndexed, EntryFor, Calm, Content, IndexOK, SameNodes, Enabled, Step, Without, WF, XList.Valid;
      ghost var m0 := params.model;
      params.SentinelHeld();
      params.Neighbours(params.sentinel);
      params.Begin(iter);
      IndexKept();
      AtFirst(m0, iter.node.id);
      more := iter.node != params.sentinel;
      if more {
        params.SentinelHeld();
        DataNode(iter.node);
        SameNodesContent(m0, params.model);
        params.Neighbours(iter.node);
        ListedNode(params.model, iter.node.id);
        var ok := XDelPrepareIter(iter);
      }
      label deleted:
      params.Fini(iter);
      IndexKept@deleted();
    }

    /** Where begin() stands. */
    lemma AtFirst(m: State, p: nat)
      requires Calm(m) && WF(m) && p == m.nodes[0].next
      ensures p < |m.nodes| && (p == 0 ==> Content(m) == [])
      ensures p > 0 ==> p in Content(m) && |Without(Content(m), p)| < |Content(m)|
    {
      hide Calm;
      WalkStarts(m);
      if p == 0 {
        ContentPassed(m);
      } else {
        ContentMembers(m, p);
        ListedFacts(m);
        var i := WithoutSplits(Content(m), p);
      }
    }

    /** What keeps an unlinked node from being freed: its count is that of iterators that are not the
        index's and of pointers from nodes that were unlinked before it. */
    lemma CountWithoutIndex(x: nat)
      requires Valid() && AtRest(params.model) && 0 < x < |params.nodes| && x !in Listed()
      ensures params.nodes[x].usageNO == Iters(params.model, x) + UnfreedRefs(params.model.nodes, x)
      ensures forall i | 0 <= i < |params.iters| && params.model.iters[i] == x :: params.iters[i] !in smap.Values
      ensures forall p | 0 <= p < |params.nodes| && (params.model.nodes[p].next == x || params.model.nodes[p].prev == x) ::
                IsUnlinked(params.model, p) && params.model.nodes[p].stamp < params.model.nodes[x].stamp
    {
      hide Content;
      CalmFacts(params.model, x);
      CountsAtRest(params.model, x);
      assert Below(x, |params.nodes|);
      forall i | 0 <= i < |params.iters| && params.model.iters[i] == x ensures params.iters[i] !in smap.Values {
        forall k | k in smap ensures smap[k] != params.iters[i] {
          assert Below(i, |params.iters|);
          IndexPinsNothing(x, k);
        }
      }
      forall p | 0 <= p < |params.nodes| && (params.model.nodes[p].next == x || params.model.nodes[p].prev == x)
        ensures IsUnlinked(params.model, p) && params.model.nodes[p].stamp < params.model.nodes[x].stamp
      {
        PointedAtByEarlier(params.model, p, x);
      }
    }

    /** Each entry of the map holds one count, on the listed node whose key it is; so an iterator on a
        node that is no longer listed is never the index's. */
    lemma IndexPinsNothing(x: nat, k: K)
      requires Valid() && 0 < x < |params.nodes| && k in smap
      ensures smap[k].id < |params.model.iters|
      ensures params.model.iters[smap[k].id] == x <==> smap[k].node == params.nodes[x]
      ensures params.model.iters[smap[k].id] == x ==> x in Listed() && HasKey(params.nodes[x].slot, k)
      ensures smapEnabled && x in Listed() && HasKey(params.nodes[x].slot, k) ==> params.model.iters[smap[k].id] == x
    {
      hide Calm, Content;
      EntryHere(k);
      params.IteratorHeld(smap[k]);
      assert Below(x, |params.nodes|);
      if smapEnabled && x in Listed() {
        var j :| 0 <= j < |Listed()| && Listed()[j] == x;
        assert Indexed(Listed()[j]);
      }
    }
  }

  /** An object whose list has the key 1 under which its map, though on, finds nothing: an iterator was kept
      on a parameter that was deleted, another one was stored under its key, and the first was deleted once
      more. */
  method StaleDelete() returns (lp: XListParam<int, int>)
    ensures fresh(lp) && lp.ListOK() && lp.smapEnabled && !lp.IndexOK()
    ensures |lp.Listed()| == 1 && lp.Listed()[0] < |lp.params.nodes|
    ensures HasKey(lp.params.nodes[lp.Listed()[0]].slot, 1) && 1 !in lp.smap
  {
    hide Calm, Content, Slots, SameNodes, WF, XListParam.IndexOK, XListParam.EntriesIn, XListParam.AllIndexed, XList.Valid;
    lp := new XListParam(0);
    var r := lp.EnableSmap();
    lp.NothingIndexed();
    StoreOne(lp, 10);
    assert forall n | 0 <= n < |lp.params.nodes| :: fresh(lp.params.nodes[n]);
    var iter := DeleteOne(lp);
    StoreOne(lp, 20);
    assert forall n | 0 <= n < |lp.params.nodes| :: fresh(lp.params.nodes[n]);
    lp.StandsOn(iter);
    var ok := lp.XDelPrepareIter(iter);
  }

  /** Stores a parameter with the key 1 where there is none. */
  method StoreOne(lp: XListParam<int, int>, value: int)
    requires lp.Valid() && lp.smapEnabled && lp.Listed() == [] && lp.smap == map[]
    modifies lp`smap, lp.params`model, lp.params`nodes, lp.params`iters, lp.params.nodes
    ensures lp.Valid() && lp.Listed() == [|old(lp.params.nodes)|] && |lp.params.nodes| > |old(lp.params.nodes)|
    ensures HasKey(lp.params.nodes[lp.Listed()[0]].slot, 1) && lp.smap.Keys == {1}
    ensures lp.params.nodes[..|old(lp.params.nodes)|] == old(lp.params.nodes)
    ensures forall n | |old(lp.params.nodes)| <= n < |lp.params.nodes| :: fresh(lp.params.nodes[n])
    ensures |old(lp.params.iters)| <= |lp.params.iters| && lp.params.iters[..|old(lp.params.iters)|] == old(lp.params.iters)
    ensures forall it | it in lp.smap.Values :: fresh(it)
  {
    hide Calm, Content, Slots, SameNodes, WF, XListParam.IndexOK, XListParam.EntriesIn, XListParam.AllIndexed, XList.Valid;
    var param := new Index.XParam(Index.Some(1), value);
    NoSlots(lp.params.nodes);
    var r := lp.AddParam(param, true);
    lp.OnlyElement(param);
  }

  lemma NoSlots<T>(nodes: seq<XListNode<T>>)
    ensures Slots(nodes, []) == []
  {
  }

  /** Finds it, and deletes it through the iterator. */
  method DeleteOne(lp: XListParam<int, int>) returns (iter: XListIterator<Index.XParam<int, int>>)
    requires lp.Valid() && lp.smapEnabled && |lp.Listed()| == 1 && lp.Listed()[0] < |lp.params.nodes|
    requires HasKey(lp.params.nodes[lp.Listed()[0]].slot, 1) && lp.smap.Keys == {1}
    modifies lp`smap, lp.params`model, lp.params`iters, lp.params.nodes, lp.smap.Values
    ensures lp.Valid() && lp.Listed() == [] && lp.smap == map[] && lp.params.nodes == old(lp.params.nodes)
    ensures fresh(iter) && lp.params.HoldsIterator(iter) && iter.node == lp.params.nodes[old(lp.Listed()[0])]
    ensures lp.params.Holds(iter.node) && iter.node != lp.params.sentinel
  {
    hide XList.Valid, Calm, Content, Slots, SameNodes, WF, XListParam.IndexOK, XListParam.EntriesIn, XListParam.AllIndexed;
    ghost var x := lp.Listed()[0];
    lp.ListedHeld(x);
    iter := lp.Find(1);
    lp.StandsOn(iter);
    var ok := lp.XDelPrepareIter(iter);
    WithoutLast([], x);
    lp.NothingIndexed();
  }

  /** In a calm state a data node that is not listed is unlinked. */
  lemma CalmFacts(s: State, x: nat)
    requires Calm(s) && WF(s) && 0 < x < |s.nodes| && x !in Content(s)
    ensures Inv(s) && s.w.Idle? && IsUnlinked(s, x)
  {
    hide Content;
    ContentMembers(s, x);
  }

  lemma ListedNode(s: State, n: nat)
    requires Calm(s) && WF(s) && n in Content(s)
    ensures n < |s.nodes| && !s.nodes[n].erasing
  {
    ContentMembers(s, n);
    ListedUnmarked(s, n);
  }

  lemma {:induction false} WithoutMember(q: seq<nat>, k: nat, x: nat)
    ensures x in Without(q, k) <==> x in q && x != k
  {
    if q != [] {
      WithoutMember(q[1..], k, x);
      assert q == [q[0]] + q[1..];
    }
  }

  lemma WithoutLast(q: seq<nat>, n: nat)
    requires Within(q, n)
    ensures Without(q + [n], n) == q
  {
    WithoutAbsent(q, n);
    WithoutAppend(q, n);
  }

  lemma {:induction false} WithoutAppend(q: seq<nat>, n: nat)
    ensures Without(q + [n], n) == Without(q, n)
  {
    if q == [] {
      assert q + [n] == [n];
      assert [n][1..] == [];
    } else {
      assert (q + [n])[1..] == q[1..] + [n];
      WithoutAppend(q[1..], n);
    }
  }
}