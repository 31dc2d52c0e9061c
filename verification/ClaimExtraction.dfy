/**
 Extracting requested claims from a credential. The result is built in place, and shares the
 dictionaries of the credential that are requested as a whole.
 */
module ClaimExtraction {
  import opened Wrappers

  class Dict {
    var items: map<string, Value>

    constructor ()
      ensures items == map[]
    {
      items := map[];
    }
  }

  // A dictionary, or anything else: only dictionaries can be searched with a string.
  datatype Value = Scalar(content: int) | Ref(dict: Dict)

  type Path = seq<string>

  // What dictionaries hold at one moment.
  type Heap = map<Dict, map<string, Value>>

  ghost function Snapshot(objs: set<Dict>): (h: Heap)
    reads objs
  {
    map d | d in objs :: d.items
  }

  ghost predicate Has(h: Heap, v: Value, key: string) {
    v.Ref? && v.dict in h && key in h[v.dict]
  }

  // A heap with one item stored, and with a new empty dictionary stored in one.
  ghost function Stored(h: Heap, d: Dict, key: string, v: Value): (h': Heap)
    requires d in h
  {
    h[d := h[d][key := v]]
  }

  ghost function AddedTo(h: Heap, d: Dict, key: string, m: Dict): (h': Heap)
    requires d in h
  {
    Stored(h, d, key, Ref(m))[m := map[]]
  }

  // The value at a path, following one key after the other.
  ghost function Get(h: Heap, v: Value, path: Path): Option<Value>
    decreases |path|
  {
    if path == [] then Some(v)
    else if Has(h, v, path[0]) then Get(h, h[v.dict][path[0]], path[1..])
    else None
  }

  lemma {:induction false} GetSnoc(h: Heap, v: Value, path: Path, key: string)
    ensures Get(h, v, path + [key])
            == var w := Get(h, v, path);
               if w.Some? && Has(h, w.value, key) then Some(h[w.value.dict][key]) else None
    decreases |path|
  {
    if path == [] {
      assert (path + [key])[1..] == [];
    } else {
      assert (path + [key])[0] == path[0] && (path + [key])[1..] == path[1..] + [key];
      if Has(h, v, path[0]) {
        GetSnoc(h, h[v.dict][path[0]], path[1..], key);
      }
    }
  }

  // The values met on the way: each key but the first is looked up in what the one before it gave.
  ghost predicate Follows(h: Heap, v: Value, path: Path, way: seq<Value>) {
    && |way| == |path| + 1
    && way[0] == v
    && forall i :: 0 <= i < |path| ==> way[i].Ref? && way[i].dict in h && path[i] in h[way[i].dict] && way[i + 1] == h[way[i].dict][path[i]]
  }

  // A value is found at a path iff the keys lead to it one after the other.
  lemma {:induction false} GetExact(h: Heap, v: Value, path: Path, w: Value)
    ensures Get(h, v, path) == Some(w) <==> exists way :: Follows(h, v, path, way) && way[|path|] == w
    decreases |path|
  {
    if path == [] {
      assert Follows(h, v, path, [v]);
    } else {
      if Get(h, v, path) == Some(w) {
        GetExact(h, h[v.dict][path[0]], path[1..], w);
        var rest :| Follows(h, h[v.dict][path[0]], path[1..], rest) && rest[|path| - 1] == w;
        assert Follows(h, v, path, [v] + rest);
      }
      if way :| Follows(h, v, path, way) && way[|path|] == w {
        assert way[1] == h[v.dict][path[0]];
        assert Follows(h, h[v.dict][path[0]], path[1..], way[1..]);
        assert way[1..][|path| - 1] == w;
        GetExact(h, h[v.dict][path[0]], path[1..], w);
      }
    }
  }

  // What starts at a prefix of an existing path exists.
  lemma {:induction false} GetPrefix(h: Heap, v: Value, path: Path, i: nat)
    requires i <= |path| && Get(h, v, path).Some?
    ensures Get(h, v, path[..i]).Some?
    ensures i < |path| ==> Has(h, Get(h, v, path[..i]).value, path[i])
    ensures i < |path| ==> Get(h, v, path[..i + 1]) == Some(h[Get(h, v, path[..i]).value.dict][path[i]])
    decreases |path| - i
  {
    if i == |path| {
      assert path[..i] == path;
    } else {
      GetPrefix(h, v, path, i + 1);
      assert path[..i + 1] == path[..i] + [path[i]];
      GetSnoc(h, v, path[..i], path[i]);
    }
  }

  /* Which paths have been requested. */

  // At or below a requested path: shared with the data.
  ghost predicate Covered(done: seq<Path>, p: Path) {
    exists i :: 0 <= i < |done| && done[i] <= p
  }

  // At or above a requested path.
  ghost predicate OnPath(done: seq<Path>, p: Path) {
    exists i :: 0 <= i < |done| && p <= done[i]
  }

  // Above requested paths only, or at the top: a dictionary made for the result.
  ghost predicate Made(done: seq<Path>, p: Path) {
    p == [] || (OnPath(done, p) && !Covered(done, p))
  }

  lemma CoveredChild(done: seq<Path>, p: Path, key: string)
    ensures Covered(done, p + [key]) <==> Covered(done, p) || p + [key] in done
  {
    if Covered(done, p + [key]) {
      var i :| 0 <= i < |done| && done[i] <= p + [key];
      if |done[i]| <= |p| {
        assert done[i] == (p + [key])[..|done[i]|] == p[..|done[i]|];
      } else {
        assert done[i] == p + [key];
      }
    }
    if Covered(done, p) {
      var i :| 0 <= i < |done| && done[i] <= p;
      assert done[i] <= p + [key];
    }
    if p + [key] in done {
      var i :| 0 <= i < |done| && done[i] == p + [key];
      assert done[i] <= p + [key];
    }
  }

  lemma OnPathParent(done: seq<Path>, p: Path, key: string)
    requires OnPath(done, p + [key])
    ensures OnPath(done, p)
  {
    var i :| 0 <= i < |done| && p + [key] <= done[i];
    assert p <= done[i];
  }

  /* The result and the dictionaries made for it. */

  // What the result looks like when done have been set and the dictionaries down to pend made.
  ghost predicate KeysMatch(h: Heap, nodes: map<Path, Dict>, done: seq<Path>, pend: Path) {
    forall p, key :: p in nodes && nodes[p] in h ==>
      (key in h[nodes[p]] <==> OnPath(done, p + [key]) || p + [key] <= pend)
  }

  ghost predicate ValuesMatch(h: Heap, data: Dict, nodes: map<Path, Dict>, done: seq<Path>) {
    forall p, key :: p in nodes && nodes[p] in h && key in h[nodes[p]] ==>
      if p + [key] in done then Get(h, Ref(data), p + [key]) == Some(h[nodes[p]][key])
      else p + [key] in nodes && h[nodes[p]][key] == Ref(nodes[p + [key]])
  }

  ghost predicate NodesMatch(nodes: map<Path, Dict>, done: seq<Path>, pend: Path) {
    forall p :: p in nodes <==> p == [] || ((OnPath(done, p) || p <= pend) && !Covered(done, p))
  }

  ghost predicate NodesApart(h: Heap, input: set<Dict>, nodes: map<Path, Dict>) {
    && (forall p :: p in nodes ==> nodes[p] in h && nodes[p] !in input)
    && (forall p, q :: p in nodes && q in nodes && nodes[p] == nodes[q] ==> p == q)
  }

  // The dictionaries of the data, and all that they hold.
  ghost predicate Closed(h: Heap, input: set<Dict>) {
    && input <= h.Keys
    && forall d, key :: d in input && key in h[d] && h[d][key].Ref? ==> h[d][key].dict in input
  }

  ghost predicate Requestable(h: Heap, data: Dict, done: seq<Path>) {
    forall i :: 0 <= i < |done| ==> done[i] != [] && Get(h, Ref(data), done[i]).Some?
  }

  ghost predicate Inv(h: Heap, input: set<Dict>, data: Dict, result: Dict, nodes: map<Path, Dict>,
                      done: seq<Path>, pend: Path)
  {
    && Closed(h, input) && data in input
    && Requestable(h, data, done)
    && NodesApart(h, input, nodes)
    && NodesMatch(nodes, done, pend)
    && [] in nodes && nodes[[]] == result
    && KeysMatch(h, nodes, done, pend)
    && ValuesMatch(h, data, nodes, done)
  }

  // Reading the data sees its own dictionaries only.
  lemma {:induction false} GetInInput(h: Heap, h': Heap, input: set<Dict>, v: Value, path: Path)
    requires Closed(h, input) && (v.Ref? ==> v.dict in input)
    requires forall d :: d in input ==> d in h' && h'[d] == h[d]
    ensures Get(h', v, path) == Get(h, v, path)
    ensures Get(h, v, path).Some? && Get(h, v, path).value.Ref? ==> Get(h, v, path).value.dict in input
    decreases |path|
  {
    if path != [] && Has(h, v, path[0]) {
      GetInInput(h, h', input, h[v.dict][path[0]], path[1..]);
    }
  }

  /**
   What extraction promises, for every path: at or below a requested path the result holds the
   very value of the data; above requested paths only, a dictionary of its own; elsewhere nothing.
   */
  ghost predicate Projection(h: Heap, input: set<Dict>, data: Dict, result: Dict, done: seq<Path>) {
    forall r :: ProjectedAt(h, input, data, result, done, r)
  }

  ghost predicate ProjectedAt(h: Heap, input: set<Dict>, data: Dict, result: Dict, done: seq<Path>, r: Path) {
    var v := Get(h, Ref(result), r);
    if Covered(done, r) then v == Get(h, Ref(data), r)
    else if Made(done, r) then v.Some? && v.value.Ref? && v.value.dict !in input
    else v == None
  }

  lemma {:induction false} InvAt(h: Heap, input: set<Dict>, data: Dict, result: Dict, nodes: map<Path, Dict>,
                                 done: seq<Path>, r: Path)
    requires Inv(h, input, data, result, nodes, done, [])
    ensures Made(done, r) ==> r in nodes && Get(h, Ref(result), r) == Some(Ref(nodes[r]))
    ensures ProjectedAt(h, input, data, result, done, r)
    decreases |r|
  {
    if r == [] {
      assert !Covered(done, []);
    } else {
      var p, key := r[..|r| - 1], r[|r| - 1];
      assert r == p + [key];
      InvAt(h, input, data, result, nodes, done, p);
      GetSnoc(h, Ref(result), p, key);
      GetSnoc(h, Ref(data), p, key);
      CoveredChild(done, p, key);
      if OnPath(done, r) { OnPathParent(done, p, key); }
      if Made(done, p) && !Covered(done, p) {
        assert p in nodes && nodes[p] in h;
        assert key in h[nodes[p]] <==> OnPath(done, p + [key]);
        if r in done {
          OnPathSelf(done, r);
        }
      } else if !Covered(done, p) && r in done {
        OnPathSelf(done, r);
      }
    }
  }

  lemma OnPathSelf(done: seq<Path>, r: Path)
    requires r in done
    ensures OnPath(done, r)
  {
    var i :| 0 <= i < |done| && done[i] == r;
    assert r <= done[i];
  }

  /* One step down a path. */

  lemma SnocInjective(p: Path, k: string, q: Path, key: string)
    ensures p + [k] == q + [key] <==> p == q && k == key
  {
    if p + [k] == q + [key] {
      assert p == (p + [k])[..|p|] == (q + [key])[..|q|] == q;
      assert k == (p + [k])[|p|] == (q + [key])[|q|] == key;
    }
  }

  lemma PrefixSnoc(p: Path, q: Path, key: string)
    ensures p <= q + [key] <==> p <= q || p == q + [key]
  {
    if p <= q + [key] && |p| <= |q| {
      assert p == (q + [key])[..|p|] == q[..|p|];
    }
    if p <= q {
      assert p == q[..|p|] == (q + [key])[..|p|];
    }
  }

  // Where the walk has got to: in the data, or at a dictionary of the result.
  ghost predicate Stands(h: Heap, input: set<Dict>, data: Dict, nodes: map<Path, Dict>, done: seq<Path>,
                         pend: Path, d: Dict)
  {
    if Covered(done, pend) then d in input && Get(h, Ref(data), pend) == Some(Ref(d))
    else pend in nodes && d == nodes[pend]
  }

  lemma OpenNodes(nodes: map<Path, Dict>, done: seq<Path>, pend: Path, key: string)
    requires NodesMatch(nodes, done, pend)
    requires OnPath(done, pend + [key]) || Covered(done, pend)
    ensures NodesMatch(nodes, done, pend + [key])
  {
    forall p ensures p in nodes <==> p == [] || ((OnPath(done, p) || p <= pend + [key]) && !Covered(done, p)) {
      PrefixSnoc(p, pend, key);
      CoveredChild(done, pend, key);
    }
  }

  lemma OpenKeys(h: Heap, nodes: map<Path, Dict>, done: seq<Path>, pend: Path, key: string)
    requires KeysMatch(h, nodes, done, pend) && NodesMatch(nodes, done, pend)
    requires [] !in done && forall i :: 0 <= i < |done| ==> done[i] != []
    requires OnPath(done, pend + [key]) || Covered(done, pend)
    ensures KeysMatch(h, nodes, done, pend + [key])
  {
    forall p, k | p in nodes && nodes[p] in h
      ensures k in h[nodes[p]] <==> OnPath(done, p + [k]) || p + [k] <= pend + [key]
    {
      PrefixSnoc(p + [k], pend, key);
      SnocInjective(p, k, pend, key);
    }
  }

  // The key is there already, so nothing changes.
  lemma OpenExisting(h: Heap, input: set<Dict>, data: Dict, result: Dict, nodes: map<Path, Dict>,
                     done: seq<Path>, pend: Path, key: string, d: Dict)
    requires Inv(h, input, data, result, nodes, done, pend) && Stands(h, input, data, nodes, done, pend, d)
    requires key in h[d] && Get(h, Ref(data), pend + [key]).Some? && Get(h, Ref(data), pend + [key]).value.Ref?
    ensures Inv(h, input, data, result, nodes, done, pend + [key])
    ensures h[d][key].Ref? && Stands(h, input, data, nodes, done, pend + [key], h[d][key].dict)
  {
    GetSnoc(h, Ref(data), pend, key);
    CoveredChild(done, pend, key);
    GetInInput(h, h, input, Ref(data), pend + [key]);
    if !Covered(done, pend) {
      assert key in h[nodes[pend]] <==> OnPath(done, pend + [key]) || pend + [key] <= pend;
    }
    OpenNodes(nodes, done, pend, key);
    OpenKeys(h, nodes, done, pend, key);
  }

  lemma ChangedElsewhere(h: Heap, h': Heap, input: set<Dict>, data: Dict, done: seq<Path>)
    requires Closed(h, input) && data in input && Requestable(h, data, done)
    requires forall d :: d in input ==> d in h' && h'[d] == h[d]
    ensures Closed(h', input) && Requestable(h', data, done)
    ensures forall p :: Get(h', Ref(data), p) == Get(h, Ref(data), p)
  {
    forall p ensures Get(h', Ref(data), p) == Get(h, Ref(data), p) {
      GetInInput(h, h', input, Ref(data), p);
    }
  }

  lemma NewNodes(nodes: map<Path, Dict>, done: seq<Path>, pend: Path, key: string, m: Dict)
    requires NodesMatch(nodes, done, pend) && !Covered(done, pend + [key])
    ensures NodesMatch(nodes[pend + [key] := m], done, pend + [key])
  {
    var nodes' := nodes[pend + [key] := m];
    forall p ensures p in nodes' <==> p == [] || ((OnPath(done, p) || p <= pend + [key]) && !Covered(done, p)) {
      PrefixSnoc(p, pend, key);
    }
  }

  lemma NewKeys(h: Heap, nodes: map<Path, Dict>, done: seq<Path>, pend: Path, key: string, d: Dict, m: Dict)
    requires KeysMatch(h, nodes, done, pend) && pend in nodes && nodes[pend] == d && d in h && m !in h
    requires forall p :: p in nodes ==> nodes[p] in h
    requires forall p :: p in nodes && nodes[p] == d ==> p == pend
    requires pend + [key] !in nodes && !OnPath(done, pend + [key])
    ensures KeysMatch(AddedTo(h, d, key, m), nodes[pend + [key] := m], done, pend + [key])
  {
    var h', nodes' := AddedTo(h, d, key, m), nodes[pend + [key] := m];
    forall p, k | p in nodes' && nodes'[p] in h'
      ensures k in h'[nodes'[p]] <==> OnPath(done, p + [k]) || p + [k] <= pend + [key]
    {
      PrefixSnoc(p + [k], pend, key);
      if p == pend + [key] {
        if OnPath(done, p + [k]) { OnPathParent(done, p, k); }
      } else {
        SnocInjective(p, k, pend, key);
        assert p in nodes && nodes'[p] == nodes[p] != m;
      }
    }
  }

  lemma NewValues(h: Heap, h': Heap, data: Dict, nodes: map<Path, Dict>, done: seq<Path>, pend: Path, key: string,
                  d: Dict, m: Dict)
    requires ValuesMatch(h, data, nodes, done) && pend in nodes && nodes[pend] == d && d in h && m !in h
    requires forall p :: p in nodes ==> nodes[p] in h
    requires forall p :: p in nodes && nodes[p] == d ==> p == pend
    requires pend + [key] !in nodes && pend + [key] !in done
    requires h' == AddedTo(h, d, key, m)
    requires forall p :: Get(h', Ref(data), p) == Get(h, Ref(data), p)
    ensures ValuesMatch(h', data, nodes[pend + [key] := m], done)
  {
    var nodes' := nodes[pend + [key] := m];
    forall p, k | p in nodes' && nodes'[p] in h' && k in h'[nodes'[p]]
      ensures if p + [k] in done then Get(h', Ref(data), p + [k]) == Some(h'[nodes'[p]][k])
              else p + [k] in nodes' && h'[nodes'[p]][k] == Ref(nodes'[p + [k]])
    {
      SnocInjective(p, k, pend, key);
      assert p in nodes && nodes'[p] == nodes[p] != m;
      if !(p == pend && k == key) {
        assert k in h[nodes[p]] && h'[nodes'[p]][k] == h[nodes[p]][k];
      }
    }
  }

  lemma NotCoveredHere(h: Heap, input: set<Dict>, data: Dict, result: Dict, nodes: map<Path, Dict>,
                       done: seq<Path>, pend: Path, key: string, d: Dict)
    requires Inv(h, input, data, result, nodes, done, pend) && Stands(h, input, data, nodes, done, pend, d)
    requires d in h && key !in h[d] && Get(h, Ref(data), pend + [key]).Some?
    ensures pend in nodes && nodes[pend] == d && !Covered(done, pend)
    ensures !OnPath(done, pend + [key]) && pend + [key] !in nodes && pend + [key] !in done
    ensures !Covered(done, pend + [key])
  {
    GetSnoc(h, Ref(data), pend, key);
    assert !Covered(done, pend);
    assert key in h[nodes[pend]] <==> OnPath(done, pend + [key]) || pend + [key] <= pend;
    if pend + [key] in done { OnPathSelf(done, pend + [key]); }
    CoveredChild(done, pend, key);
  }

  // The key is not there, so a new dictionary is put there.
  lemma OpenNew(h: Heap, input: set<Dict>, data: Dict, result: Dict, nodes: map<Path, Dict>,
                done: seq<Path>, pend: Path, key: string, d: Dict, m: Dict)
    requires Inv(h, input, data, result, nodes, done, pend) && Stands(h, input, data, nodes, done, pend, d)
    requires d in h && key !in h[d] && m !in h && Get(h, Ref(data), pend + [key]).Some?
    ensures Inv(AddedTo(h, d, key, m), input, data, result, nodes[pend + [key] := m],
                done, pend + [key])
    ensures Stands(AddedTo(h, d, key, m), input, data, nodes[pend + [key] := m],
                   done, pend + [key], m)
    ensures d !in input
  {
    var h' := AddedTo(h, d, key, m);
    NotCoveredHere(h, input, data, result, nodes, done, pend, key, d);
    ChangedElsewhere(h, h', input, data, done);
    NewNodes(nodes, done, pend, key, m);
    NewKeys(h, nodes, done, pend, key, d, m);
    NewValues(h, h', data, nodes, done, pend, key, d, m);
  }

  /* Setting the value at the end of a path. */

  lemma DoneSnoc(done: seq<Path>, path: Path, p: Path)
    ensures Covered(done + [path], p) <==> Covered(done, p) || path <= p
    ensures OnPath(done + [path], p) <==> OnPath(done, p) || p <= path
  {
    var done' := done + [path];
    assert done'[|done|] == path;
    assert forall i :: 0 <= i < |done| ==> done'[i] == done[i];
    if Covered(done, p) {
      var i :| 0 <= i < |done| && done[i] <= p;
      assert done'[i] <= p;
    }
    if OnPath(done, p) {
      var i :| 0 <= i < |done| && p <= done[i];
      assert p <= done'[i];
    }
  }

  // The dictionaries of the result that stay when a value is set at the path.
  ghost function Above(nodes: map<Path, Dict>, path: Path): map<Path, Dict> {
    map p | p in nodes && !(path <= p) :: nodes[p]
  }

  lemma SetNodes(nodes: map<Path, Dict>, done: seq<Path>, pend: Path, key: string)
    requires NodesMatch(nodes, done, pend)
    ensures NodesMatch(Above(nodes, pend + [key]), done + [pend + [key]], [])
  {
    var path := pend + [key];
    var nodes', done' := Above(nodes, path), done + [path];
    forall p ensures p in nodes' <==> p == [] || ((OnPath(done', p) || p <= []) && !Covered(done', p)) {
      DoneSnoc(done, path, p);
      PrefixSnoc(p, pend, key);
    }
  }

  lemma SetKeys(h: Heap, h': Heap, nodes: map<Path, Dict>, done: seq<Path>, pend: Path, key: string, d: Dict, v: Value)
    requires KeysMatch(h, nodes, done, pend) && NodesMatch(nodes, done, pend)
    requires forall p :: p in nodes ==> nodes[p] in h
    requires pend in nodes && nodes[pend] == d && forall p :: p in nodes && nodes[p] == d ==> p == pend
    requires h' == Stored(h, d, key, v)
    ensures KeysMatch(h', Above(nodes, pend + [key]), done + [pend + [key]], [])
  {
    var path := pend + [key];
    var nodes' := Above(nodes, path);
    forall p, k | p in nodes' && nodes'[p] in h'
      ensures k in h'[nodes'[p]] <==> OnPath(done + [path], p + [k]) || p + [k] <= []
    {
      DoneSnoc(done, path, p + [k]);
      PrefixSnoc(p + [k], pend, key);
      SnocInjective(p, k, pend, key);
      assert k in h[nodes[p]] <==> OnPath(done, p + [k]) || p + [k] <= pend;
    }
  }

  lemma SetValues(h: Heap, h': Heap, data: Dict, nodes: map<Path, Dict>, done: seq<Path>, pend: Path, key: string,
                  d: Dict, v: Value)
    requires ValuesMatch(h, data, nodes, done) && pend in nodes && nodes[pend] == d
    requires forall p :: p in nodes ==> nodes[p] in h
    requires forall p :: p in nodes && nodes[p] == d ==> p == pend
    requires h' == Stored(h, d, key, v)
    requires forall p :: Get(h', Ref(data), p) == Get(h, Ref(data), p)
    requires Get(h, Ref(data), pend + [key]) == Some(v)
    ensures ValuesMatch(h', data, Above(nodes, pend + [key]), done + [pend + [key]])
  {
    var path := pend + [key];
    var nodes', done' := Above(nodes, path), done + [path];
    forall p, k | p in nodes' && nodes'[p] in h' && k in h'[nodes'[p]]
      ensures if p + [k] in done' then Get(h', Ref(data), p + [k]) == Some(h'[nodes'[p]][k])
              else p + [k] in nodes' && h'[nodes'[p]][k] == Ref(nodes'[p + [k]])
    {
      SnocInjective(p, k, pend, key);
      if p + [k] != path {
        assert k in h[nodes[p]] && h'[nodes'[p]][k] == h[nodes[p]][k];
        if p + [k] !in done' {
          PrefixSnoc(path, p, k);
        }
      }
    }
  }

  lemma RequestSnoc(h: Heap, data: Dict, done: seq<Path>, path: Path)
    requires Requestable(h, data, done) && path != [] && Get(h, Ref(data), path).Some?
    ensures Requestable(h, data, done + [path])
  {
    var done' := done + [path];
    forall i | 0 <= i < |done'| ensures done'[i] != [] && Get(h, Ref(data), done'[i]).Some? {
      assert i < |done| ==> done'[i] == done[i];
    }
  }

  // At a dictionary of the result, the value is stored there.
  lemma SetInResult(h: Heap, input: set<Dict>, data: Dict, result: Dict, nodes: map<Path, Dict>,
                    done: seq<Path>, pend: Path, key: string, d: Dict, v: Value)
    requires Inv(h, input, data, result, nodes, done, pend)
    requires !Covered(done, pend) && pend in nodes && d == nodes[pend] && Get(h, Ref(data), pend + [key]) == Some(v)
    ensures Inv(Stored(h, d, key, v), input, data, result, Above(nodes, pend + [key]), done + [pend + [key]], [])
  {
    var h' := Stored(h, d, key, v);
    ChangedElsewhere(h, h', input, data, done);
    RequestSnoc(h', data, done, pend + [key]);
    SetNodes(nodes, done, pend, key);
    SetKeys(h, h', nodes, done, pend, key, d, v);
    SetValues(h, h', data, nodes, done, pend, key, d, v);
  }

  // Within the data, the value is stored where it already is.
  lemma SetInData(h: Heap, input: set<Dict>, data: Dict, result: Dict, nodes: map<Path, Dict>,
                  done: seq<Path>, pend: Path, key: string, d: Dict, v: Value)
    requires Inv(h, input, data, result, nodes, done, pend)
    requires Covered(done, pend) && Stands(h, input, data, nodes, done, pend, d)
    requires Get(h, Ref(data), pend + [key]) == Some(v)
    ensures d in input && key in h[d] && h[d][key] == v
    ensures Inv(h, input, data, result, Above(nodes, pend + [key]), done + [pend + [key]], [])
  {
    var path := pend + [key];
    var nodes' := Above(nodes, path);
    GetSnoc(h, Ref(data), pend, key);
    RequestSnoc(h, data, done, path);
    SetNodes(nodes, done, pend, key);
    forall p, k | p in nodes' && nodes'[p] in h
      ensures k in h[nodes'[p]] <==> OnPath(done + [path], p + [k]) || p + [k] <= []
    {
      DoneSnoc(done, path, p + [k]);
      PrefixSnoc(p + [k], pend, key);
      SnocInjective(p, k, pend, key);
    }
    forall p, k | p in nodes' && nodes'[p] in h && k in h[nodes'[p]]
      ensures if p + [k] in done + [path] then Get(h, Ref(data), p + [k]) == Some(h[nodes'[p]][k])
              else p + [k] in nodes' && h[nodes'[p]][k] == Ref(nodes'[p + [k]])
    {
      PrefixSnoc(path, p, k);
      SnocInjective(p, k, pend, key);
    }
  }

  // Either way the value is now at the path, and the data is as it was.
  lemma SetAnywhere(h: Heap, input: set<Dict>, data: Dict, result: Dict, nodes: map<Path, Dict>,
                    done: seq<Path>, pend: Path, key: string, d: Dict, v: Value)
    requires Inv(h, input, data, result, nodes, done, pend) && Stands(h, input, data, nodes, done, pend, d)
    requires Get(h, Ref(data), pend + [key]) == Some(v)
    ensures d in h
    ensures Inv(Stored(h, d, key, v), input, data, result, Above(nodes, pend + [key]), done + [pend + [key]], [])
    ensures d in input ==> h[d][key := v] == h[d]
  {
    if Covered(done, pend) {
      SetInData(h, input, data, result, nodes, done, pend, key, d, v);
      assert h[d][key := v] == h[d];
      assert Stored(h, d, key, v) == h;
    } else {
      SetInResult(h, input, data, result, nodes, done, pend, key, d, v);
    }
  }
}
