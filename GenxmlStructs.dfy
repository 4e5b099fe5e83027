/*
 * Struct references and the dependency-first struct order of the genxml
 * canonicaliser (intel_genxml.py: `add_struct_refs`, `Struct`,
 * `find_deps`, `add_xml`).
 */
module GenStructs {
  import opened GenTree

  // -------------------------------------------------------------------
  // The keys of an OrderedDict
  // -------------------------------------------------------------------

  predicate NoDup(ks: seq<string>) {
    forall i, j :: 0 <= i < j < |ks| ==> ks[i] != ks[j]
  }

  /** The keys after `d[k] = v`: a new key goes last, an existing one
      keeps its place. */
  function PutKey(ks: seq<string>, k: string): (r: seq<string>)
    ensures k in r && ks <= r
    ensures forall x :: x in r <==> x in ks || x == k
    ensures NoDup(ks) ==> NoDup(r)
  {
    if k in ks then ks else ks + [k]
  }

  /** The keys after `d[k] = v` for each `k` of `xs` in turn. */
  function PutAll(ks: seq<string>, xs: seq<string>): (r: seq<string>)
  {
    if |xs| == 0 then ks else PutKey(PutAll(ks, xs[..|xs| - 1]), xs[|xs| - 1])
  }

  /** Inserting keys keeps the old ones in place, adds exactly the new
      ones, and never a key twice. */
  lemma {:induction false} PutAllSpec(ks: seq<string>, xs: seq<string>)
    ensures ks <= PutAll(ks, xs)
    ensures forall x :: x in PutAll(ks, xs) <==> x in ks || x in xs
    ensures NoDup(ks) ==> NoDup(PutAll(ks, xs))
  {
    if |xs| > 0 {
      var init := xs[..|xs| - 1];
      PutAllSpec(ks, init);
      assert xs == init + [xs[|xs| - 1]];
    }
  }

  lemma {:induction false} PutAllAppend(ks: seq<string>, xs: seq<string>, ys: seq<string>)
    ensures PutAll(ks, xs + ys) == PutAll(PutAll(ks, xs), ys)
  {
    if |ys| == 0 {
      assert xs + ys == xs;
    } else {
      var init := ys[..|ys| - 1];
      PutAllAppend(ks, xs, init);
      assert (xs + ys)[..|xs + ys| - 1] == xs + init;
    }
  }

  /** An OrderedDict used for its keys. */
  class Names {
    var keys: seq<string>

    constructor()
      ensures keys == []
    {
      keys := [];
    }

    /** `d[k] = v`. */
    method Put(k: string)
      modifies this
      ensures keys == PutKey(old(keys), k)
    {
      keys := PutKey(keys, k);
    }
  }

  // -------------------------------------------------------------------
  // add_struct_refs
  // -------------------------------------------------------------------

  /** The types `add_struct_refs` records under an element, in document
      order, repeats included. */
  function StructRefs(n: Node): seq<string>
    decreases n, 1
  {
    if n.tag == "field" then
      match Lookup(n.attrib, "type")
      case Some(t) => if !IsBaseType(t) then [t] else []
      case None => []
    else if n.tag == "struct" || n.tag == "group" then RefsAll(n.children)
    else []
  }

  function RefsAll(cs: seq<Node>): seq<string>
    decreases cs, 0
  {
    if |cs| == 0 then [] else RefsAll(cs[..|cs| - 1]) + StructRefs(cs[|cs| - 1])
  }

  /** `t` is the non-base type of a field that is reached from `n`
      through struct and group elements only. */
  ghost predicate RefersTo(n: Node, t: string)
    decreases n
  {
    (n.tag == "field" && Lookup(n.attrib, "type") == Some(t) && !IsBaseType(t)) ||
    ((n.tag == "struct" || n.tag == "group") &&
     exists i :: 0 <= i < |n.children| && RefersTo(n.children[i], t))
  }

  /** The recorded types are exactly the ones the three rules reach. */
  lemma {:induction false} StructRefsMeaning(n: Node, t: string)
    ensures t in StructRefs(n) <==> RefersTo(n, t)
    decreases n, 1
  {
    if n.tag != "field" && (n.tag == "struct" || n.tag == "group") {
      RefsAllMeaning(n.children, t);
      forall i | 0 <= i < |n.children| ensures t in StructRefs(n.children[i]) <==> RefersTo(n.children[i], t) {
        StructRefsMeaning(n.children[i], t);
      }
    }
  }

  lemma {:induction false} RefsAllMeaning(cs: seq<Node>, t: string)
    ensures t in RefsAll(cs) <==> exists i :: 0 <= i < |cs| && t in StructRefs(cs[i])
  {
    if |cs| > 0 {
      var init := cs[..|cs| - 1];
      RefsAllMeaning(init, t);
      if exists i :: 0 <= i < |init| && t in StructRefs(init[i]) {
        var i :| 0 <= i < |init| && t in StructRefs(init[i]);
        assert init[i] == cs[i];
      }
      if exists i :: 0 <= i < |cs| && t in StructRefs(cs[i]) {
        var i :| 0 <= i < |cs| && t in StructRefs(cs[i]);
        if i < |init| {
          assert init[i] == cs[i];
        }
      }
    }
  }

  /** `add_struct_refs(items, node)`: records the referenced types in
      `items`, keeping the keys already there in place. */
  method AddStructRefs(items: Names, node: Node)
    modifies items
    ensures items.keys == PutAll(old(items.keys), StructRefs(node))
    decreases node
  {
    if node.tag == "field" {
      var t := Lookup(node.attrib, "type");
      if t.Some? && !IsBaseType(t.value) {
        items.Put(t.value);
        assert [t.value][..0] == [];
      }
      return;
    }
    if node.tag != "struct" && node.tag != "group" {
      return;
    }
    var i := 0;
    while i < |node.children|
      invariant 0 <= i <= |node.children|
      invariant items.keys == PutAll(old(items.keys), RefsAll(node.children[..i]))
    {
      AddStructRefs(items, node.children[i]);
      PutAllAppend(old(items.keys), RefsAll(node.children[..i]), StructRefs(node.children[i]));
      assert node.children[..i + 1][..i] == node.children[..i];
      i := i + 1;
    }
    assert node.children[..|node.children|] == node.children;
  }

  // -------------------------------------------------------------------
  // find_deps
  // -------------------------------------------------------------------

  /** The keys of `add_struct_refs(OrderedDict(), node)`. */
  function RefNames(n: Node): seq<string> {
    PutAll([], StructRefs(n))
  }

  /** The `find_deps` loop over the reference names: the struct names it
      records before it stops, and whether it got through every name (it
      stops at the first name that is neither a struct nor an enum). */
  function ScanDeps(ds: seq<string>, structs: set<string>, enums: set<string>): (seq<string>, bool)
  {
    if |ds| == 0 then ([], true)
    else
      var r := ScanDeps(ds[..|ds| - 1], structs, enums);
      var d := ds[|ds| - 1];
      if !r.1 then r
      else if d in structs then (r.0 + [d], true)
      else if d in enums then r
      else (r.0, false)
  }

  /** `find_deps` fails exactly when a reference names neither a struct
      nor an enum; otherwise the dependencies are the referenced structs. */
  lemma {:induction false} ScanDepsSpec(ds: seq<string>, structs: set<string>, enums: set<string>)
    ensures ScanDeps(ds, structs, enums).1 <==> forall d :: d in ds ==> d in structs || d in enums
    ensures ScanDeps(ds, structs, enums).1 ==>
      forall d :: d in ScanDeps(ds, structs, enums).0 <==> d in ds && d in structs
    ensures forall d :: d in ScanDeps(ds, structs, enums).0 ==> d in structs
  {
    if |ds| > 0 {
      var init := ds[..|ds| - 1];
      ScanDepsSpec(init, structs, enums);
      assert ds == init + [ds[|ds| - 1]];
    }
  }

  /** Past the first failure, the scan records nothing more. */
  lemma {:induction false} ScanStops(ds: seq<string>, j: nat, structs: set<string>, enums: set<string>)
    requires j <= |ds| && !ScanDeps(ds[..j], structs, enums).1
    ensures ScanDeps(ds, structs, enums) == ScanDeps(ds[..j], structs, enums)
    decreases |ds| - j
  {
    if j < |ds| {
      assert ds[..j + 1][..j] == ds[..j];
      ScanStops(ds, j + 1, structs, enums);
    } else {
      assert ds[..j] == ds;
    }
  }

  // -------------------------------------------------------------------
  // add_xml
  // -------------------------------------------------------------------

  /** The dependency graph: each struct name to its dependencies' names. */
  type Graph = map<string, seq<string>>

  predicate Closed(g: Graph) {
    forall n, d :: n in g && d in g[n] ==> d in g
  }

  /** The keys `add_xml` leaves in `items`, and the exception it raises.
      `fuel` is the recursion depth Python still allows; a call with none
      left raises RecursionError, which on a dependency cycle always
      happens. */
  datatype Outcome = Outcome(keys: seq<string>, err: Option<PyError>)

  function Visit(g: Graph, ks: seq<string>, n: string, fuel: nat): Outcome
    requires Closed(g) && n in g
    decreases fuel, 1
  {
    if fuel == 0 then Outcome(ks, Some(RecursionError))
    else
      var o := VisitAll(g, ks, g[n], fuel - 1);
      if o.err.Some? then o else Outcome(PutKey(o.keys, n), None)
  }

  /** `add_xml` on each of `ds` in turn, stopping at the first exception. */
  function VisitAll(g: Graph, ks: seq<string>, ds: seq<string>, fuel: nat): Outcome
    requires Closed(g) && forall d :: d in ds ==> d in g
    decreases fuel, 2, |ds|
  {
    if |ds| == 0 then Outcome(ks, None)
    else
      var o := VisitAll(g, ks, ds[..|ds| - 1], fuel);
      if o.err.Some? then o else Visit(g, o.keys, ds[|ds| - 1], fuel)
  }

  lemma {:induction false} VisitAllStops(g: Graph, ks: seq<string>, ds: seq<string>, j: nat, fuel: nat)
    requires Closed(g) && (forall d :: d in ds ==> d in g) && j <= |ds|
    requires VisitAll(g, ks, ds[..j], fuel).err.Some?
    ensures VisitAll(g, ks, ds, fuel) == VisitAll(g, ks, ds[..j], fuel)
    decreases |ds| - j
  {
    if j < |ds| {
      assert ds[..j + 1][..j] == ds[..j];
      VisitAllStops(g, ks, ds, j + 1, fuel);
    } else {
      assert ds[..j] == ds;
    }
  }

  /** `add_xml` keeps the keys already in `items` in place, adds only
      struct names, and never adds a name twice. */
  lemma {:induction false} VisitGrows(g: Graph, ks: seq<string>, n: string, fuel: nat)
    requires Closed(g) && n in g
    ensures ks <= Visit(g, ks, n, fuel).keys
    ensures forall x :: x in Visit(g, ks, n, fuel).keys ==> x in ks || x in g
    ensures NoDup(ks) ==> NoDup(Visit(g, ks, n, fuel).keys)
    decreases fuel, 1
  {
    if fuel > 0 {
      VisitAllGrows(g, ks, g[n], fuel - 1);
    }
  }

  lemma {:induction false} VisitAllGrows(g: Graph, ks: seq<string>, ds: seq<string>, fuel: nat)
    requires Closed(g) && forall d :: d in ds ==> d in g
    ensures ks <= VisitAll(g, ks, ds, fuel).keys
    ensures forall x :: x in VisitAll(g, ks, ds, fuel).keys ==> x in ks || x in g
    ensures NoDup(ks) ==> NoDup(VisitAll(g, ks, ds, fuel).keys)
    decreases fuel, 2, |ds|
  {
    if |ds| > 0 {
      var init := ds[..|ds| - 1];
      VisitAllGrows(g, ks, init, fuel);
      var o := VisitAll(g, ks, init, fuel);
      if o.err.None? {
        VisitGrows(g, o.keys, ds[|ds| - 1], fuel);
      }
    }
  }

  /** Every struct name in `ks` comes after the names of its
      dependencies. */
  predicate DepsBefore(g: Graph, ks: seq<string>) {
    forall i, d :: 0 <= i < |ks| && ks[i] in g && d in g[ks[i]] ==> d in ks[..i]
  }

  /** When `add_xml` returns normally, its struct is in `items` and every
      name in `items` still comes after its dependencies. */
  lemma {:induction false} VisitDepsFirst(g: Graph, ks: seq<string>, n: string, fuel: nat)
    requires Closed(g) && n in g && DepsBefore(g, ks)
    requires Visit(g, ks, n, fuel).err.None?
    ensures n in Visit(g, ks, n, fuel).keys && DepsBefore(g, Visit(g, ks, n, fuel).keys)
    decreases fuel, 1
  {
    var o := VisitAll(g, ks, g[n], fuel - 1);
    VisitAllDepsFirst(g, ks, g[n], fuel - 1);
    PutDepsFirst(g, o.keys, n);
  }

  lemma PutDepsFirst(g: Graph, ks: seq<string>, n: string)
    requires n in g && DepsBefore(g, ks) && forall d :: d in g[n] ==> d in ks
    ensures DepsBefore(g, PutKey(ks, n))
  {
    if n !in ks {
      var r := ks + [n];
      forall i, d | 0 <= i < |r| && r[i] in g && d in g[r[i]] ensures d in r[..i] {
        if i < |ks| {
          assert r[..i] == ks[..i];
        } else {
          assert r[..i] == ks;
        }
      }
    }
  }

  lemma {:induction false} VisitAllDepsFirst(g: Graph, ks: seq<string>, ds: seq<string>, fuel: nat)
    requires Closed(g) && (forall d :: d in ds ==> d in g) && DepsBefore(g, ks)
    requires VisitAll(g, ks, ds, fuel).err.None?
    ensures forall d :: d in ds ==> d in VisitAll(g, ks, ds, fuel).keys
    ensures DepsBefore(g, VisitAll(g, ks, ds, fuel).keys)
    decreases fuel, 2, |ds|
  {
    if |ds| > 0 {
      var init, last := ds[..|ds| - 1], ds[|ds| - 1];
      VisitAllDepsFirst(g, ks, init, fuel);
      var o := VisitAll(g, ks, init, fuel);
      VisitDepsFirst(g, o.keys, last, fuel);
      VisitGrows(g, o.keys, last, fuel);
      assert ds == init + [last];
    }
  }

  /** A rank that falls along every dependency certifies that the graph
      has no cycle. */
  predicate RankedBy(g: Graph, rank: map<string, nat>) {
    forall n :: n in g ==> n in rank && forall d :: d in g[n] ==> d in rank && rank[d] < rank[n]
  }

  /** On an acyclic graph, with more recursion depth than the rank of
      the struct, `add_xml` raises nothing. */
  lemma {:induction false} VisitRanked(g: Graph, rank: map<string, nat>, ks: seq<string>, n: string, fuel: nat)
    requires Closed(g) && RankedBy(g, rank) && n in g && rank[n] < fuel
    ensures Visit(g, ks, n, fuel).err.None?
    decreases fuel, 1
  {
    VisitAllRanked(g, rank, ks, g[n], fuel - 1);
  }

  lemma {:induction false} VisitAllRanked(g: Graph, rank: map<string, nat>, ks: seq<string>, ds: seq<string>, fuel: nat)
    requires Closed(g) && RankedBy(g, rank)
    requires forall d :: d in ds ==> d in g && rank[d] < fuel
    ensures VisitAll(g, ks, ds, fuel).err.None?
    decreases fuel, 2, |ds|
  {
    if |ds| > 0 {
      var init := ds[..|ds| - 1];
      VisitAllRanked(g, rank, ks, init, fuel);
      VisitRanked(g, rank, VisitAll(g, ks, init, fuel).keys, ds[|ds| - 1], fuel);
    }
  }

  // -------------------------------------------------------------------
  // Reachability and the visit order
  // -------------------------------------------------------------------

  /** A chain of struct names, each a dependency of the one before. */
  ghost predicate IsPath(g: Graph, p: seq<string>) {
    |p| > 0 && (forall k :: 0 <= k < |p| ==> p[k] in g) &&
    forall k :: 0 <= k < |p| - 1 ==> p[k + 1] in g[p[k]]
  }

  /** `b` is `a` or one of its dependencies, direct or transitive. */
  ghost predicate Reaches(g: Graph, a: string, b: string) {
    exists p :: IsPath(g, p) && p[0] == a && p[|p| - 1] == b
  }

  /** `b` is reached from one of the names in `ns`. */
  ghost predicate ReachedFrom(g: Graph, ns: seq<string>, b: string) {
    exists k :: 0 <= k < |ns| && Reaches(g, ns[k], b)
  }

  lemma PathCons(g: Graph, n: string, p: seq<string>)
    requires n in g && IsPath(g, p) && p[0] in g[n]
    ensures IsPath(g, [n] + p) && ([n] + p)[0] == n && ([n] + p)[|[n] + p| - 1] == p[|p| - 1]
  {
    var q := [n] + p;
    forall k | 0 <= k < |q| - 1 ensures q[k + 1] in g[q[k]] {
      if k > 0 {
        assert q[k] == p[k - 1] && q[k + 1] == p[k];
      }
    }
  }

  /** A struct that `add_xml` puts in `items` is the visited struct or
      one of its transitive dependencies. */
  lemma {:induction false} VisitReach(g: Graph, ks: seq<string>, n: string, fuel: nat)
    requires Closed(g) && n in g
    ensures forall x :: x in Visit(g, ks, n, fuel).keys ==> x in ks || Reaches(g, n, x)
    decreases fuel, 1
  {
    if fuel > 0 {
      var o := VisitAll(g, ks, g[n], fuel - 1);
      VisitAllReach(g, ks, g[n], fuel - 1);
      forall x | x in o.keys && x !in ks ensures Reaches(g, n, x) {
        var k :| 0 <= k < |g[n]| && Reaches(g, g[n][k], x);
        var p :| IsPath(g, p) && p[0] == g[n][k] && p[|p| - 1] == x;
        PathCons(g, n, p);
      }
      assert IsPath(g, [n]) && [n][0] == n && [n][|[n]| - 1] == n;
    }
  }

  lemma {:induction false} VisitAllReach(g: Graph, ks: seq<string>, ds: seq<string>, fuel: nat)
    requires Closed(g) && forall d :: d in ds ==> d in g
    ensures forall x :: x in VisitAll(g, ks, ds, fuel).keys ==> x in ks || ReachedFrom(g, ds, x)
    decreases fuel, 2, |ds|
  {
    if |ds| > 0 {
      var init, last := ds[..|ds| - 1], ds[|ds| - 1];
      VisitAllReach(g, ks, init, fuel);
      forall x | ReachedFrom(g, init, x) ensures ReachedFrom(g, ds, x) {
        var k :| 0 <= k < |init| && Reaches(g, init[k], x);
        assert ds[k] == init[k];
      }
      var o := VisitAll(g, ks, init, fuel);
      if o.err.None? {
        VisitReach(g, o.keys, last, fuel);
      }
    }
  }

  /** Names closed under dependencies hold everything their members
      reach. */
  lemma {:induction false} ReachClosed(g: Graph, ks: seq<string>, p: seq<string>)
    requires IsPath(g, p) && p[0] in ks && DepsBefore(g, ks)
    ensures p[|p| - 1] in ks
    decreases |p|
  {
    if |p| > 1 {
      var init := p[..|p| - 1];
      assert IsPath(g, init) by {
        assert forall k :: 0 <= k < |init| ==> init[k] == p[k];
      }
      ReachClosed(g, ks, init);
      var i :| 0 <= i < |ks| && ks[i] == p[|p| - 2];
      assert p[|p| - 1] in g[ks[i]];
    }
  }

  /** Visiting a prefix of a list leaves a prefix of the keys that
      visiting the whole list leaves. */
  lemma {:induction false} VisitAllPrefix(g: Graph, ks: seq<string>, ds: seq<string>, m: nat, fuel: nat)
    requires Closed(g) && (forall d :: d in ds ==> d in g) && m <= |ds|
    ensures VisitAll(g, ks, ds[..m], fuel).keys <= VisitAll(g, ks, ds, fuel).keys
    decreases |ds|
  {
    if m == |ds| {
      assert ds[..m] == ds;
    } else {
      var init := ds[..|ds| - 1];
      assert init[..m] == ds[..m];
      VisitAllPrefix(g, ks, init, m, fuel);
      var o := VisitAll(g, ks, init, fuel);
      if o.err.None? {
        VisitGrows(g, o.keys, ds[|ds| - 1], fuel);
      }
    }
  }

  /** Visiting `ds` in turn from an empty `items` puts `ds[i]` before
      `ds[j]` (i < j) unless `ds[j]` is reached from one of `ds[..i+1]`:
      the visit order of the list decides every tie the dependencies
      leave open. */
  lemma VisitAllOrdered(g: Graph, ds: seq<string>, fuel: nat, i: nat, j: nat, q: nat)
    requires Closed(g) && (forall d :: d in ds ==> d in g) && VisitAll(g, [], ds, fuel).err.None?
    requires i < j < |ds| && q < |VisitAll(g, [], ds, fuel).keys|
    requires VisitAll(g, [], ds, fuel).keys[q] == ds[j] && !ReachedFrom(g, ds[..i + 1], ds[j])
    ensures ds[i] in VisitAll(g, [], ds, fuel).keys[..q]
  {
    var r := VisitAll(g, [], ds, fuel).keys;
    var pre := ds[..i + 1];
    var o := VisitAll(g, [], pre, fuel);
    VisitAllPrefix(g, [], ds, i + 1, fuel);
    if o.err.Some? {
      VisitAllStops(g, [], ds, i + 1, fuel);
    }
    VisitAllDepsFirst(g, [], pre, fuel);
    assert pre[i] == ds[i];
    VisitAllReach(g, [], pre, fuel);
    var p :| 0 <= p < |o.keys| && o.keys[p] == ds[i];
    assert r[p] == ds[i];
  }

  // -------------------------------------------------------------------
  // class Struct
  // -------------------------------------------------------------------

  /** A struct element with the names of the structs it depends on. */
  class Struct {
    const xml: Node
    const name: string
    var deps: seq<string>

    constructor(xml: Node)
      requires "name" in Keys(xml.attrib)
      ensures this.xml == xml && Lookup(xml.attrib, "name") == Some(name) && deps == []
    {
      this.xml := xml;
      this.name := Lookup(xml.attrib, "name").value;
      deps := [];
    }

    /** `find_deps`: records the referenced structs; a reference that is
        neither a struct nor an enum fails the assertion. */
    method FindDeps(structs: set<string>, enums: set<string>) returns (err: Option<PyError>)
      modifies this
      ensures var s := ScanDeps(RefNames(xml), structs, enums);
        deps == PutAll(old(deps), s.0) && err == (if s.1 then None else Some(AssertionError))
    {
      var refs := new Names();
      AddStructRefs(refs, xml);
      var ds := refs.keys;
      var i := 0;
      while i < |ds|
        invariant 0 <= i <= |ds|
        invariant ScanDeps(ds[..i], structs, enums).1
        invariant deps == PutAll(old(deps), ScanDeps(ds[..i], structs, enums).0)
      {
        var d := ds[i];
        assert ds[..i + 1][..i] == ds[..i];
        if d in structs {
          PutAllAppend(old(deps), ScanDeps(ds[..i], structs, enums).0, [d]);
          assert [d][..0] == [];
          deps := PutKey(deps, d);
        } else if d !in enums {
          ScanStops(ds, i + 1, structs, enums);
          err := Some(AssertionError);
          return;
        }
        i := i + 1;
      }
      assert ds[..|ds|] == ds;
      err := None;
    }

    /** `add_xml`: the dependencies first, depth first, then the struct
        itself.  `structs` is the dictionary the dependencies were found
        in, and `g` its dependency graph. */
    method AddXml(items: Names, structs: map<string, Struct>, ghost g: Graph, depth: nat)
      returns (err: Option<PyError>)
      requires Closed(g) && name in g && g[name] == deps
      requires forall n :: n in g ==> n in structs && structs[n].name == n && structs[n].deps == g[n]
      modifies items
      ensures items.keys == Visit(g, old(items.keys), name, depth).keys
      ensures err == Visit(g, old(items.keys), name, depth).err
      decreases depth
    {
      if depth == 0 {
        return Some(RecursionError);
      }
      var i := 0;
      while i < |deps|
        invariant 0 <= i <= |deps|
        invariant VisitAll(g, old(items.keys), deps[..i], depth - 1) == Outcome(items.keys, None)
      {
        assert deps[..i + 1][..i] == deps[..i];
        err := structs[deps[i]].AddXml(items, structs, g, depth - 1);
        if err.Some? {
          VisitAllStops(g, old(items.keys), deps, i + 1, depth - 1);
          return;
        }
        i := i + 1;
      }
      assert deps[..|deps|] == deps;
      items.Put(name);
      err := None;
    }
  }
}
