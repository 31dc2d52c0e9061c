/** The loops that look up the requested claims and build the result in place. */
module AttributeMapper {
  import opened Wrappers
  import opened ClaimExtraction

  // A requested path: none, a list of keys, or anything else, of which only the first
  // component is used, if it is a key at all.
  datatype PathObj = Absent | Keys(path: Path) | Other(head: Option<string>)

  function Wanted(o: PathObj): Path {
    match o
    case Absent => []
    case Keys(path) => path
    case Other(head) => if head.Some? then [head.value] else []
  }

  predicate Skipped(o: PathObj) {
    o == Absent || o == Keys([])
  }

  ghost predicate IsMissing(h: Heap, data: Dict, o: PathObj) {
    !Skipped(o) && (o == Other(None) || Get(h, Ref(data), Wanted(o)).None?)
  }

  // The requests that cannot be met, in order.
  ghost function Missing(h: Heap, data: Dict, paths: seq<PathObj>): seq<PathObj> {
    if paths == [] then []
    else
      var last := paths[|paths| - 1];
      Missing(h, data, paths[..|paths| - 1]) + if IsMissing(h, data, last) then [last] else []
  }

  // The paths that exist, in order.
  ghost function Found(h: Heap, data: Dict, paths: seq<PathObj>): seq<Path> {
    if paths == [] then []
    else
      var last := paths[|paths| - 1];
      Found(h, data, paths[..|paths| - 1])
      + if Skipped(last) || IsMissing(h, data, last) then [] else [Wanted(last)]
  }

  ghost predicate Unchanged(h: Heap, input: set<Dict>)
    reads input
  {
    input <= h.Keys && forall d :: d in input ==> d.items == h[d]
  }

  // current = current[key] for every key; anything that is not a dictionary raises.
  method Find(data: Dict, path: Path, ghost input: set<Dict>) returns (r: Option<Value>)
    requires data in input && Closed(Snapshot(input), input)
    ensures r == Get(Snapshot(input), Ref(data), path)
  {
    ghost var h := Snapshot(input);
    var current := Ref(data);
    for i := 0 to |path|
      invariant current.Ref? ==> current.dict in input
      invariant Get(h, current, path[i..]) == Get(h, Ref(data), path)
    {
      assert path[i..][0] == path[i] && path[i..][1..] == path[i + 1..];
      if current.Scalar? || path[i] !in current.dict.items {
        return None;
      }
      current := current.dict.items[path[i]];
    }
    return Some(current);
  }

  method MakeItem(d: Dict, key: string, ghost objs: set<Dict>) returns (m: Dict)
    requires d in objs
    modifies d
    ensures fresh(m) && Snapshot(objs + {m}) == AddedTo(old(Snapshot(objs)), d, key, m)
  {
    m := new Dict();
    d.items := d.items[key := Ref(m)];
  }

  method StoreItem(d: Dict, key: string, value: Value, ghost objs: set<Dict>)
    requires d in objs
    modifies d
    ensures Snapshot(objs) == Stored(old(Snapshot(objs)), d, key, value)
  {
    d.items := d.items[key := value];
  }

  // d.setdefault(key, {})
  method SetDefault(d: Dict, key: string, ghost input: set<Dict>, ghost data: Dict, ghost result: Dict,
                    ghost objs: set<Dict>, ghost nodes: map<Path, Dict>, ghost done: seq<Path>, ghost pend: Path)
    returns (child: Dict, ghost objs': set<Dict>, ghost nodes': map<Path, Dict>)
    requires d in objs && Inv(Snapshot(objs), input, data, result, nodes, done, pend)
    requires Stands(Snapshot(objs), input, data, nodes, done, pend, d)
    requires var v := Get(Snapshot(objs), Ref(data), pend + [key]); v.Some? && v.value.Ref?
    modifies d
    ensures objs <= objs' && fresh(objs' - objs) && child in objs'
    ensures Inv(Snapshot(objs'), input, data, result, nodes', done, pend + [key])
    ensures Stands(Snapshot(objs'), input, data, nodes', done, pend + [key], child)
    ensures Unchanged(old(Snapshot(objs)), input)
  {
    if key in d.items {
      objs', nodes' := objs, nodes;
      OpenExisting(Snapshot(objs), input, data, result, nodes, done, pend, key, d);
      StandsInHeap(Snapshot(objs), input, data, result, nodes, done, pend + [key], d.items[key].dict);
      child := d.items[key].dict;
    } else {
      child, objs', nodes' := AddItem(d, key, input, data, result, objs, nodes, done, pend);
    }
  }

  method AddItem(d: Dict, key: string, ghost input: set<Dict>, ghost data: Dict, ghost result: Dict,
                 ghost objs: set<Dict>, ghost nodes: map<Path, Dict>, ghost done: seq<Path>, ghost pend: Path)
    returns (m: Dict, ghost objs': set<Dict>, ghost nodes': map<Path, Dict>)
    requires d in objs && key !in d.items && Inv(Snapshot(objs), input, data, result, nodes, done, pend)
    requires Stands(Snapshot(objs), input, data, nodes, done, pend, d)
    requires Get(Snapshot(objs), Ref(data), pend + [key]).Some?
    modifies d
    ensures objs <= objs' && fresh(objs' - objs) && m in objs'
    ensures Inv(Snapshot(objs'), input, data, result, nodes', done, pend + [key])
    ensures Stands(Snapshot(objs'), input, data, nodes', done, pend + [key], m)
    ensures Unchanged(old(Snapshot(objs)), input)
  {
    ghost var h := Snapshot(objs);
    m := MakeItem(d, key, objs);
    OpenNew(h, input, data, result, nodes, done, pend, key, d, m);
    objs', nodes' := objs + {m}, nodes[pend + [key] := m];
  }

  lemma StandsInHeap(h: Heap, input: set<Dict>, data: Dict, result: Dict, nodes: map<Path, Dict>,
                     done: seq<Path>, pend: Path, d: Dict)
    requires Inv(h, input, data, result, nodes, done, pend) && Stands(h, input, data, nodes, done, pend, d)
    ensures d in h
  {
  }

  // d[key] = value, at the end of a path
  method SetItem(d: Dict, key: string, value: Value, ghost input: set<Dict>, ghost data: Dict, ghost result: Dict,
                 ghost objs: set<Dict>, ghost nodes: map<Path, Dict>, ghost done: seq<Path>, ghost pend: Path)
    requires d in objs && Inv(Snapshot(objs), input, data, result, nodes, done, pend)
    requires Stands(Snapshot(objs), input, data, nodes, done, pend, d)
    requires Get(Snapshot(objs), Ref(data), pend + [key]) == Some(value)
    modifies d
    ensures Inv(Snapshot(objs), input, data, result, Above(nodes, pend + [key]), done + [pend + [key]], [])
    ensures Unchanged(old(Snapshot(objs)), input)
  {
    ghost var h := Snapshot(objs);
    SetAnywhere(h, input, data, result, nodes, done, pend, key, d, value);
    StoreItem(d, key, value, objs);
  }

  // Nothing that the walk meets lacks an item it needs: every value on the way is a dictionary.
  method SetNested(result: Dict, path: Path, value: Value, ghost input: set<Dict>, ghost data: Dict,
                   ghost objs: set<Dict>, ghost nodes: map<Path, Dict>, ghost done: seq<Path>)
    returns (ghost objs': set<Dict>, ghost nodes': map<Path, Dict>)
    requires path != [] && Get(Snapshot(objs), Ref(data), path) == Some(value)
    requires Inv(Snapshot(objs), input, data, result, nodes, done, [])
    modifies objs
    ensures objs <= objs' && fresh(objs' - objs)
    ensures Inv(Snapshot(objs'), input, data, result, nodes', done + [path], [])
    ensures Unchanged(old(Snapshot(objs)), input)
  {
    objs', nodes' := objs, nodes;
    ghost var h0 := Snapshot(objs);
    var d := result;
    var i := 0;
    assert path[..0] == [] && !Covered(done, []);
    while i < |path| - 1
      invariant 0 <= i < |path|
      invariant objs <= objs' && fresh(objs' - objs) && d in objs'
      invariant Unchanged(h0, input)
      invariant Inv(Snapshot(objs'), input, data, result, nodes', done, path[..i])
      invariant Stands(Snapshot(objs'), input, data, nodes', done, path[..i], d)
    {
      NextExists(h0, Snapshot(objs'), input, data, path, i);
      d, objs', nodes' := SetDefault(d, path[i], input, data, result, objs', nodes', done, path[..i]);
      i := i + 1;
    }
    assert path == path[..i] + [path[i]];
    GetInInput(h0, Snapshot(objs'), input, Ref(data), path);
    SetItem(d, path[i], value, input, data, result, objs', nodes', done, path[..i]);
    nodes' := Above(nodes', path);
  }

  lemma NextExists(h0: Heap, h: Heap, input: set<Dict>, data: Dict, path: Path, i: nat)
    requires Closed(h0, input) && data in input && forall d :: d in input ==> d in h && h[d] == h0[d]
    requires i < |path| - 1 && Get(h0, Ref(data), path).Some?
    ensures path[..i + 1] == path[..i] + [path[i]]
    ensures Get(h, Ref(data), path[..i + 1]).Some? && Get(h, Ref(data), path[..i + 1]).value.Ref?
  {
    GetPrefix(h0, Ref(data), path, i + 1);
    GetInInput(h0, h, input, Ref(data), path[..i + 1]);
  }

  /**
   The extraction of any requests from any data. It fails iff some request is missing, and says
   which; otherwise the result is the projection of the data to the requested paths. Either way
   the data is as before, although the result shares parts of it and is written through.
   */
  method ExtractClaims(data: Dict, paths: seq<PathObj>, ghost input: set<Dict>)
    returns (r: Result<Dict, seq<PathObj>>, ghost objs: set<Dict>)
    requires data in input && Closed(Snapshot(input), input)
    modifies input
    ensures Unchanged(old(Snapshot(input)), input)
    ensures r.Err? <==> Missing(old(Snapshot(input)), data, paths) != []
    ensures r.Err? ==> r.error == Missing(old(Snapshot(input)), data, paths)
    ensures r.Ok? ==> fresh(objs - input) && r.value in objs
                      && Projection(Snapshot(objs), input, data, r.value, Found(old(Snapshot(input)), data, paths))
  {
    ghost var h0 := Snapshot(input);
    var result: Dict := new Dict();
    objs := input + {result};
    EmptyResult(Snapshot(objs), input, data, result, h0);
    assert Snapshot(input) == h0;
    var missing;
    ghost var nodes;
    missing, objs, nodes := ExtractAll(data, paths, result, input, objs, map[[] := result]);
    if missing != [] {
      return Err(missing), objs;
    }
    InvProjects(Snapshot(objs), input, data, result, nodes, Found(h0, data, paths));
    return Ok(result), objs;
  }

  // The loop over the requests.
  method ExtractAll(data: Dict, paths: seq<PathObj>, result: Dict, ghost input: set<Dict>, ghost objs: set<Dict>,
                    ghost nodes: map<Path, Dict>)
    returns (missing: seq<PathObj>, ghost objs': set<Dict>, ghost nodes': map<Path, Dict>)
    requires Closed(Snapshot(input), input) && input <= objs
    requires Inv(Snapshot(objs), input, data, result, nodes, [], [])
    modifies objs
    ensures objs <= objs' && fresh(objs' - objs) && Unchanged(old(Snapshot(input)), input)
    ensures missing == Missing(old(Snapshot(input)), data, paths)
    ensures Inv(Snapshot(objs'), input, data, result, nodes', Found(old(Snapshot(input)), data, paths), [])
  {
    ghost var h0 := Snapshot(input);
    missing, objs', nodes' := [], objs, nodes;
    for i := 0 to |paths|
      invariant objs <= objs' && fresh(objs' - objs) && Unchanged(h0, input)
      invariant missing == Missing(h0, data, paths[..i])
      invariant Inv(Snapshot(objs'), input, data, result, nodes', Found(h0, data, paths[..i]), [])
    {
      assert paths[..i + 1] == paths[..i] + [paths[i]];
      FoundSnoc(h0, data, paths[..i], paths[i]);
      assert Snapshot(input) == h0;
      var ok;
      ok, objs', nodes' := ExtractOne(data, paths[i], result, input, objs', nodes', Found(h0, data, paths[..i]));
      if !ok {
        missing := missing + [paths[i]];
      }
    }
    assert paths[..|paths|] == paths;
  }

  // One turn of the loop; ok says that the request is not missing.
  method ExtractOne(data: Dict, o: PathObj, result: Dict, ghost input: set<Dict>, ghost objs: set<Dict>,
                    ghost nodes: map<Path, Dict>, ghost done: seq<Path>)
    returns (ok: bool, ghost objs': set<Dict>, ghost nodes': map<Path, Dict>)
    requires Closed(Snapshot(input), input) && input <= objs
    requires Inv(Snapshot(objs), input, data, result, nodes, done, [])
    modifies objs
    ensures ok <==> !IsMissing(old(Snapshot(input)), data, o)
    ensures objs <= objs' && fresh(objs' - objs) && Unchanged(old(Snapshot(input)), input)
    ensures Inv(Snapshot(objs'), input, data, result, nodes',
                if ok && !Skipped(o) then done + [Wanted(o)] else done, [])
  {
    objs', nodes' := objs, nodes;
    if Skipped(o) {
      return true, objs, nodes;
    }
    if o == Other(None) {
      return false, objs, nodes;
    }
    var value := Find(data, Wanted(o), input);
    if value.None? {
      return false, objs, nodes;
    }
    GetInInput(Snapshot(input), Snapshot(objs), input, Ref(data), Wanted(o));
    objs', nodes' := SetNested(result, Wanted(o), value.value, input, data, objs, nodes, done);
    ok := true;
  }

  lemma InvProjects(h: Heap, input: set<Dict>, data: Dict, result: Dict, nodes: map<Path, Dict>, done: seq<Path>)
    requires Inv(h, input, data, result, nodes, done, [])
    ensures result in h && Projection(h, input, data, result, done)
  {
    forall p ensures ProjectedAt(h, input, data, result, done, p) {
      InvAt(h, input, data, result, nodes, done, p);
    }
  }

  lemma FoundSnoc(h: Heap, data: Dict, paths: seq<PathObj>, o: PathObj)
    ensures Found(h, data, paths + [o])
            == if Skipped(o) || IsMissing(h, data, o) then Found(h, data, paths) else Found(h, data, paths) + [Wanted(o)]
    ensures Missing(h, data, paths + [o])
            == if IsMissing(h, data, o) then Missing(h, data, paths) + [o] else Missing(h, data, paths)
  {
    assert (paths + [o])[..|paths|] == paths;
  }

  lemma EmptyResult(h: Heap, input: set<Dict>, data: Dict, result: Dict, h0: Heap)
    requires Closed(h0, input) && data in input && forall d :: d in input ==> d in h && h[d] == h0[d]
    requires result !in input && result in h && h[result] == map[]
    ensures Inv(h, input, data, result, map[[] := result], [], [])
  {
  }

  /* What follows for callers. */

  // Extraction succeeds iff each request that is not empty names something that exists.
  lemma {:induction false} SucceedsIffAllExist(h: Heap, data: Dict, paths: seq<PathObj>)
    ensures Missing(h, data, paths) == [] <==>
            forall i :: 0 <= i < |paths| && !Skipped(paths[i]) ==>
              paths[i] != Other(None) && Get(h, Ref(data), Wanted(paths[i])).Some?
    ensures Missing(h, data, paths) == [] ==>
              forall p :: p in Found(h, data, paths) <==>
                exists i :: 0 <= i < |paths| && !Skipped(paths[i]) && Wanted(paths[i]) == p
  {
    if paths == [] {
    } else {
      var front, last := paths[..|paths| - 1], paths[|paths| - 1];
      assert paths == front + [last];
      SucceedsIffAllExist(h, data, front);
      FoundSnoc(h, data, front, last);
      if Missing(h, data, paths) == [] {
        forall p ensures p in Found(h, data, paths) <==> (exists i :: 0 <= i < |paths| && !Skipped(paths[i]) && Wanted(paths[i]) == p) {
          if !Skipped(last) && Wanted(last) == p {
            assert paths[|paths| - 1] == last;
          }
          if p in Found(h, data, front) {
            var i :| 0 <= i < |front| && !Skipped(front[i]) && Wanted(front[i]) == p;
            assert paths[i] == front[i];
          }
        }
      }
    }
  }

  // The request cannot be met: none of its keys may be missing on the way.
  ghost predicate CannotBeMet(h: Heap, data: Dict, o: PathObj) {
    match o
    case Absent => false
    case Keys(path) => path != [] && Get(h, Ref(data), path) == None
    case Other(None) => true
    case Other(Some(key)) => data !in h || key !in h[data]
  }

  // The path that a request stands for.
  ghost predicate StandsFor(o: PathObj, p: Path) {
    match o
    case Absent => false
    case Keys(path) => path != [] && p == path
    case Other(None) => false
    case Other(Some(key)) => p == [key]
  }

  /**
   What is reported and what is taken over, by the form of the requests: a list of keys stands for the
   whole path, anything else for its first component alone, and an absent or empty request for nothing.
   */
  lemma {:induction false} RequestsExact(h: Heap, data: Dict, paths: seq<PathObj>)
    ensures forall o :: o in Missing(h, data, paths) <==> o in paths && CannotBeMet(h, data, o)
    ensures forall p :: p in Found(h, data, paths) <==>
              exists i :: 0 <= i < |paths| && StandsFor(paths[i], p) && !CannotBeMet(h, data, paths[i])
    decreases |paths|
  {
    if paths == [] {
    } else {
      var front, last := paths[..|paths| - 1], paths[|paths| - 1];
      assert paths == front + [last];
      RequestsExact(h, data, front);
      FoundSnoc(h, data, front, last);
      OneRequest(h, data, last);
      forall p
        ensures p in Found(h, data, paths) <==>
                  exists i :: 0 <= i < |paths| && StandsFor(paths[i], p) && !CannotBeMet(h, data, paths[i])
      {
        FoundAmong(h, data, front, last, p);
      }
    }
  }

  lemma {:induction false} OneRequest(h: Heap, data: Dict, o: PathObj)
    ensures IsMissing(h, data, o) <==> CannotBeMet(h, data, o)
    ensures !IsMissing(h, data, o) ==> forall p :: StandsFor(o, p) <==> !Skipped(o) && p == Wanted(o)
  {
    if o.Other? && o.head.Some? {
      OneKey(h, data, o.head.value);
    }
  }

  lemma OneKey(h: Heap, data: Dict, key: string)
    ensures Get(h, Ref(data), [key]).Some? <==> data in h && key in h[data]
  {
    assert [key][1..] == [];
  }

  lemma FoundAmong(h: Heap, data: Dict, front: seq<PathObj>, last: PathObj, p: Path)
    ensures (exists i :: 0 <= i < |front + [last]| && StandsFor((front + [last])[i], p) && !CannotBeMet(h, data, (front + [last])[i]))
            <==> (exists i :: 0 <= i < |front| && StandsFor(front[i], p) && !CannotBeMet(h, data, front[i]))
                 || (StandsFor(last, p) && !CannotBeMet(h, data, last))
  {
    var all := front + [last];
    assert all[|front|] == last && forall i :: 0 <= i < |front| ==> all[i] == front[i];
  }

  // The very same thing is found in both results, or a dictionary of its own in each, or nothing.
  ghost predicate SameAt(h1: Heap, h2: Heap, input: set<Dict>, result1: Dict, result2: Dict, r: Path) {
    var v1, v2 := Get(h1, Ref(result1), r), Get(h2, Ref(result2), r);
    v1 == v2 || (v1.Some? && v2.Some? && v1.value.Ref? && v2.value.Ref?
                 && v1.value.dict !in input && v2.value.dict !in input)
  }

  /**
   The order of the requests does not matter, nor do repetitions, even if one path is a prefix of
   another: two results for the same set of paths agree at every path.
   */
  lemma OrderDoesNotMatter(h1: Heap, h2: Heap, input: set<Dict>, data: Dict, result1: Dict, result2: Dict,
                           done1: seq<Path>, done2: seq<Path>)
    requires Projection(h1, input, data, result1, done1) && Projection(h2, input, data, result2, done2)
    requires Closed(h1, input) && data in input && forall d :: d in input ==> d in h2 && h2[d] == h1[d]
    requires forall p :: p in done1 <==> p in done2
    ensures forall r :: SameAt(h1, h2, input, result1, result2, r)
  {
    forall r ensures SameAt(h1, h2, input, result1, result2, r) {
      assert ProjectedAt(h1, input, data, result1, done1, r) && ProjectedAt(h2, input, data, result2, done2, r);
      SameCover(done1, done2, r);
      SameCover(done2, done1, r);
      GetInInput(h1, h2, input, Ref(data), r);
    }
  }

  lemma SameCover(done1: seq<Path>, done2: seq<Path>, r: Path)
    requires forall p :: p in done1 ==> p in done2
    ensures Covered(done1, r) ==> Covered(done2, r)
    ensures OnPath(done1, r) ==> OnPath(done2, r)
  {
    if Covered(done1, r) {
      var i :| 0 <= i < |done1| && done1[i] <= r;
      assert done1[i] in done2;
    }
    if OnPath(done1, r) {
      var i :| 0 <= i < |done1| && r <= done1[i];
      assert done1[i] in done2;
    }
  }
}
