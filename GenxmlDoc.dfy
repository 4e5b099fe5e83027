/*
 * The whole-document passes of the genxml canonicaliser
 * (intel_genxml.py: `sort_xml` and `GenXml.filter_engines`).
 */
module GenDoc {
  import opened GenTree
  import opened GenSort
  import opened GenAttribs
  import opened GenStructs

  // -------------------------------------------------------------------
  // Sorting element lists
  // -------------------------------------------------------------------

  /** `findall(tag)` on the root: its children with that tag, in order. */
  function Select(cs: seq<Node>, tag: string): (r: seq<Node>)
    ensures forall c :: c in r <==> c in cs && c.tag == tag
    ensures forall i :: 0 <= i < |r| ==> r[i].tag == tag
  {
    if |cs| == 0 then []
    else Select(cs[..|cs| - 1], tag) + (if cs[|cs| - 1].tag == tag then [cs[|cs| - 1]] else [])
  }

  /** The three sort keys `sort_xml` uses. */
  datatype SortKey = ByName | ByValue | ByStart

  /** The key of an element: `get_name`, `get_value` or `get_start`. */
  function KeyOf(f: SortKey, n: Node): Raises<Key> {
    match f
    case ByName => (match GetName(n) case Ok(s) => Ok(Name(s)) case Raise(e) => Raise(e))
    case ByValue => (match GetValue(n) case Ok(v) => Ok(Num(v)) case Raise(e) => Raise(e))
    case ByStart => (match GetStart(n) case Ok(v) => Ok(Num(v)) case Raise(e) => Raise(e))
  }

  /** A key function as `sorted` takes it. */
  type KeyFun = Node -> Raises<Key>

  /** The key function of a `SortKey`. */
  function KeyFn(f: SortKey): KeyFun {
    n => KeyOf(f, n)
  }

  /** The elements paired with their keys; the first key that cannot be
      read raises. */
  function KeyedBy<T>(cs: seq<T>, key: T -> Raises<Key>): (r: Raises<seq<(Key, T)>>)
    ensures r.Ok? <==> forall i :: 0 <= i < |cs| ==> key(cs[i]).Ok?
    ensures r.Ok? ==> (|r.value| == |cs| &&
      forall i :: 0 <= i < |cs| ==> r.value[i] == (key(cs[i]).value, cs[i]))
  {
    if |cs| == 0 then Ok([])
    else
      match key(cs[0])
      case Raise(e) => Raise(e)
      case Ok(k) =>
        var rest := KeyedBy(cs[1..], key);
        assert forall i :: 1 <= i < |cs| ==> cs[i] == cs[1..][i - 1];
        match rest
        case Raise(e) => Raise(e)
        case Ok(ks) => Ok([(k, cs[0])] + ks)
  }

  /** `sorted(cs, key=key)`. */
  function SortedBy<T>(cs: seq<T>, key: T -> Raises<Key>): Raises<seq<T>> {
    match KeyedBy(cs, key)
    case Raise(e) => Raise(e)
    case Ok(ks) => Ok(Items(SortByKey(ks)))
  }

  /** `sorted` fails exactly when a key cannot be read; otherwise it
      returns a permutation of the elements in which no key is below an
      earlier one's. */
  lemma SortedBySpec<T>(cs: seq<T>, key: T -> Raises<Key>)
    ensures SortedBy(cs, key).Ok? <==> forall i :: 0 <= i < |cs| ==> key(cs[i]).Ok?
    ensures SortedBy(cs, key).Ok? ==> var s := SortedBy(cs, key).value;
      multiset(s) == multiset(cs) &&
      (forall i :: 0 <= i < |s| ==> key(s[i]).Ok?) &&
      forall i, j :: 0 <= i < j < |s| ==> !KeyLt(key(s[j]).value, key(s[i]).value)
  {
    if SortedBy(cs, key).Ok? {
      var ks := KeyedBy(cs, key).value;
      var sorted := SortByKey(ks);
      var s := Items(sorted);
      SortByKeySpec(ks);
      ItemsSort(ks);
      assert Items(ks) == cs;
      KeysFollow(ks, sorted, key);
    }
  }

  /** Pairs whose keys are their elements' keys still are after a
      permutation. */
  lemma KeysFollow<T>(ks: seq<(Key, T)>, sorted: seq<(Key, T)>, key: T -> Raises<Key>)
    requires multiset(sorted) == multiset(ks)
    requires forall i :: 0 <= i < |ks| ==> key(ks[i].1) == Ok(ks[i].0)
    ensures forall i :: 0 <= i < |sorted| ==> key(sorted[i].1) == Ok(sorted[i].0)
  {
    forall i | 0 <= i < |sorted| ensures key(sorted[i].1) == Ok(sorted[i].0) {
      assert sorted[i] in multiset(ks);
      var j :| 0 <= j < |ks| && ks[j] == sorted[i];
    }
  }

  lemma ItemsAppend<T>(a: seq<(Key, T)>, b: seq<(Key, T)>)
    ensures Items(a + b) == Items(a) + Items(b)
  {
    assert forall i :: 0 <= i < |a + b| ==> Items(a + b)[i] == (Items(a) + Items(b))[i];
  }

  lemma ItemsCons<T>(x: (Key, T), ys: seq<(Key, T)>)
    ensures Items([x] + ys) == [x.1] + Items(ys)
  {
    assert ([x] + ys)[1..] == ys;
  }

  /** Inserting a pair adds its element to the elements. */
  lemma {:induction false} ItemsInsert<T>(x: (Key, T), ys: seq<(Key, T)>)
    ensures multiset(Items(Insert(x, ys))) == multiset(Items(ys)) + multiset{x.1}
  {
    if |ys| > 0 {
      ItemsCons(ys[0], ys[1..]);
      assert ys == [ys[0]] + ys[1..];
      if KeyLt(x.0, ys[0].0) {
        ItemsCons(x, ys);
      } else {
        var rest := Insert(x, ys[1..]);
        ItemsInsert(x, ys[1..]);
        ItemsCons(ys[0], rest);
        assert multiset(Items(Insert(x, ys))) == multiset{ys[0].1} + multiset(Items(rest));
      }
    }
  }

  /** Sorting pairs by key permutes their elements. */
  lemma {:induction false} ItemsSort<T>(xs: seq<(Key, T)>)
    ensures multiset(Items(SortByKey(xs))) == multiset(Items(xs))
  {
    if |xs| > 0 {
      var init, x := xs[..|xs| - 1], xs[|xs| - 1];
      ItemsSort(init);
      ItemsInsert(x, SortByKey(init));
      assert Items(xs) == Items(init) + [x.1] by {
        assert xs == init + [x];
        ItemsAppend(init, [x]);
        assert Items([x]) == [x.1];
      }
      calc {
        multiset(Items(SortByKey(xs)));
        multiset(Items(Insert(x, SortByKey(init))));
        multiset(Items(init)) + multiset{x.1};
        multiset(Items(xs));
      }
    }
  }

  /** `e[:] = sorted(e, key=key)` on each element in turn; the first
      element whose children cannot be sorted raises. */
  function SortEach(ns: seq<Node>, key: KeyFun): (r: Raises<seq<Node>>)
    ensures r.Ok? <==> forall i :: 0 <= i < |ns| ==> SortedBy(ns[i].children, key).Ok?
    ensures r.Ok? ==> (|r.value| == |ns| && forall i :: 0 <= i < |ns| ==>
      r.value[i] == ns[i].(children := SortedBy(ns[i].children, key).value))
  {
    if |ns| == 0 then Ok([])
    else
      match SortedBy(ns[0].children, key)
      case Raise(e) => Raise(e)
      case Ok(cs) =>
        var rest := SortEach(ns[1..], key);
        assert forall i :: 1 <= i < |ns| ==> ns[i] == ns[1..][i - 1];
        match rest
        case Raise(e) => Raise(e)
        case Ok(ms) => Ok([ns[0].(children := cs)] + ms)
  }

  /** One top-level group of `sort_xml`: the root's children with `tag`,
      sorted by `byName`, each with its own children sorted by
      `byChild`. */
  function Group(cs: seq<Node>, tag: string, byName: KeyFun, byChild: KeyFun): Raises<seq<Node>> {
    match SortedBy(Select(cs, tag), byName)
    case Raise(e) => Raise(e)
    case Ok(s) => SortEach(s, byChild)
  }

  /** `n` is an element of `cs` with the tag, its children sorted. */
  ghost predicate SortedFrom(cs: seq<Node>, tag: string, byChild: KeyFun, n: Node) {
    exists m :: m in cs && m.tag == tag && n == m.(children := n.children) && SortedBy(m.children, byChild) == Ok(n.children)
  }

  /** Every element of a group is an element of the root with that tag,
      its children sorted. */
  lemma GroupFrom(cs: seq<Node>, tag: string, byName: KeyFun, byChild: KeyFun)
    requires Group(cs, tag, byName, byChild).Ok?
    ensures forall n :: n in Group(cs, tag, byName, byChild).value ==> SortedFrom(cs, tag, byChild, n)
  {
    var sel := Select(cs, tag);
    var s := SortedBy(sel, byName).value;
    var r := Group(cs, tag, byName, byChild).value;
    SortedBySpec(sel, byName);
    forall n | n in r ensures SortedFrom(cs, tag, byChild, n)
    {
      var i :| 0 <= i < |r| && r[i] == n;
      assert s[i] in multiset(sel);
      assert s[i] in sel;
    }
  }

  /** Every element of the root with the group's tag is in the group. */
  lemma GroupCovers(cs: seq<Node>, tag: string, byName: KeyFun, byChild: KeyFun)
    requires Group(cs, tag, byName, byChild).Ok?
    ensures |Group(cs, tag, byName, byChild).value| == |Select(cs, tag)|
    ensures forall m :: m in cs && m.tag == tag ==>
      exists n :: n in Group(cs, tag, byName, byChild).value && n == m.(children := n.children)
  {
    var sel := Select(cs, tag);
    var s := SortedBy(sel, byName).value;
    var r := Group(cs, tag, byName, byChild).value;
    SortedBySpec(sel, byName);
    forall m | m in cs && m.tag == tag ensures exists n :: n in r && n == m.(children := n.children) {
      assert m in sel;
      assert m in multiset(sel);
      assert m in multiset(s);
      var i :| 0 <= i < |s| && s[i] == m;
      assert r[i] in r;
    }
  }

  /** A key that reads only the element's attributes. */
  ghost predicate IgnoresChildren(key: KeyFun) {
    forall m: Node, c: seq<Node> {:trigger key(m.(children := c))} :: key(m.(children := c)) == key(m)
  }

  /** Every element has a key, and no key is below an earlier one's. */
  ghost predicate KeyOrdered(ns: seq<Node>, key: KeyFun) {
    (forall i :: 0 <= i < |ns| ==> key(ns[i]).Ok?) &&
    forall i, j :: 0 <= i < j < |ns| ==> !KeyLt(key(ns[j]).value, key(ns[i]).value)
  }

  /** A group is ordered by its name key. */
  lemma GroupSorted(cs: seq<Node>, tag: string, byName: KeyFun, byChild: KeyFun)
    requires Group(cs, tag, byName, byChild).Ok? && IgnoresChildren(byName)
    ensures KeyOrdered(Group(cs, tag, byName, byChild).value, byName)
  {
    var sel := Select(cs, tag);
    var s := SortedBy(sel, byName).value;
    var r := Group(cs, tag, byName, byChild).value;
    SortedBySpec(sel, byName);
    forall i | 0 <= i < |r| ensures byName(r[i]) == byName(s[i]) {
      assert r[i] == s[i].(children := r[i].children);
    }
  }

  /** `get_name` reads only attributes, and gives the element's name. */
  lemma NameKey()
    ensures IgnoresChildren(KeyFn(ByName))
    ensures forall n :: KeyFn(ByName)(n).Ok? ==> KeyFn(ByName)(n) == Ok(Name(NameOf(n)))
  {
  }

  /** The elements of a group are as well formed as the root's. */
  lemma GroupWellFormed(cs: seq<Node>, tag: string, byName: KeyFun, byChild: KeyFun)
    requires Group(cs, tag, byName, byChild).Ok? && forall c :: c in cs ==> WellFormed(c)
    ensures forall n :: n in Group(cs, tag, byName, byChild).value ==> WellFormed(n)
  {
    GroupFrom(cs, tag, byName, byChild);
    forall n | n in Group(cs, tag, byName, byChild).value ensures WellFormed(n) {
      var m :| m in cs && m.tag == tag && n == m.(children := n.children) && SortedBy(m.children, byChild) == Ok(n.children);
      SortedBySpec(m.children, byChild);
      assert WellFormed(m);
      forall k | 0 <= k < |n.children| ensures WellFormed(n.children[k]) {
        assert n.children[k] in multiset(m.children);
        var j :| 0 <= j < |m.children| && m.children[j] == n.children[k];
      }
      assert n.attrib == m.attrib;
    }
  }

  // -------------------------------------------------------------------
  // The struct block
  // -------------------------------------------------------------------

  /** The name of an element already known to have one. */
  function NameOf(n: Node): string {
    match GetName(n) case Ok(s) => s case Raise(_) => ""
  }

  /** A dictionary filled from `ss` in order: each name to the last
      element of that name. */
  function TableBy<T>(ss: seq<T>, name: T -> string): (t: map<string, T>)
    ensures forall n :: n in t ==> t[n] in ss && name(t[n]) == n
    ensures forall i :: 0 <= i < |ss| ==> name(ss[i]) in t
  {
    if |ss| == 0 then map[]
    else TableBy(ss[..|ss| - 1], name)[name(ss[|ss| - 1]) := ss[|ss| - 1]]
  }

  /** `[f(x) for x in xs]`. */
  function MapSeq<T, U>(xs: seq<T>, f: T -> U): (r: seq<U>)
    ensures |r| == |xs| && forall i :: 0 <= i < |xs| ==> r[i] == f(xs[i])
  {
    if |xs| == 0 then [] else [f(xs[0])] + MapSeq(xs[1..], f)
  }

  lemma MapSeqHas<T, U>(xs: seq<T>, f: T -> U)
    ensures forall x :: x in xs ==> f(x) in MapSeq(xs, f)
  {
    forall x | x in xs ensures f(x) in MapSeq(xs, f) {
      var i :| 0 <= i < |xs| && xs[i] == x;
      assert MapSeq(xs, f)[i] == f(x);
    }
  }

  /** Each struct's dependencies as `find_deps` records them. */
  function DepGraph(table: map<string, Node>, enums: set<string>): Graph {
    map n | n in table :: PutAll([], ScanDeps(RefNames(table[n]), table.Keys, enums).0)
  }

  /** Every reference of every struct names a struct or an enum. */
  predicate DepsKnown(table: map<string, Node>, enums: set<string>) {
    forall n :: n in table ==> ScanDeps(RefNames(table[n]), table.Keys, enums).1
  }

  lemma DepGraphClosed(table: map<string, Node>, enums: set<string>)
    ensures Closed(DepGraph(table, enums)) && DepGraph(table, enums).Keys == table.Keys
  {
    var g := DepGraph(table, enums);
    forall n, d | n in g && d in g[n] ensures d in g {
      var s := ScanDeps(RefNames(table[n]), table.Keys, enums);
      PutAllSpec([], s.0);
      ScanDepsSpec(RefNames(table[n]), table.Keys, enums);
    }
  }

  /** The names of the enums. */
  function EnumNames(enums: seq<Node>): set<string> {
    set e | e in enums :: NameOf(e)
  }

  /** The keys of `sorted_structs` after `add_xml` on each of `names`. */
  function OrderFrom(g: Graph, names: seq<string>, depth: nat): (r: Raises<seq<string>>)
    requires Closed(g) && forall x :: x in names ==> x in g
    ensures r.Ok? ==> forall x :: x in r.value ==> x in g
  {
    var o := VisitAll(g, [], names, depth);
    VisitAllGrows(g, [], names, depth);
    if o.err.Some? then Raise(o.err.value) else Ok(o.keys)
  }

  /** The order names each struct once, puts every struct after the
      structs it depends on, holds exactly the structs `names` reach, and
      otherwise follows `names`: `names[i]` comes before a later
      `names[j]` unless `names[j]` is needed by one of `names[..i+1]`. */
  lemma OrderFromSpec(g: Graph, names: seq<string>, depth: nat)
    requires Closed(g) && (forall x :: x in names ==> x in g) && OrderFrom(g, names, depth).Ok?
    ensures var r := OrderFrom(g, names, depth).value;
      NoDup(r) && DepsBefore(g, r) && (forall x :: x in names ==> x in r) &&
      (forall x :: x in r <==> ReachedFrom(g, names, x)) &&
      forall i, j, q ::
        (0 <= i < j < |names| && 0 <= q < |r| && r[q] == names[j] &&
         !ReachedFrom(g, names[..i + 1], names[j])) ==> names[i] in r[..q]
  {
    var r := OrderFrom(g, names, depth).value;
    VisitAllGrows(g, [], names, depth);
    VisitAllDepsFirst(g, [], names, depth);
    VisitAllReach(g, [], names, depth);
    forall x | ReachedFrom(g, names, x) ensures x in r {
      var k :| 0 <= k < |names| && Reaches(g, names[k], x);
      var p :| IsPath(g, p) && p[0] == names[k] && p[|p| - 1] == x;
      ReachClosed(g, r, p);
    }
    forall i, j, q | 0 <= i < j < |names| && 0 <= q < |r| && r[q] == names[j] &&
      !ReachedFrom(g, names[..i + 1], names[j])
      ensures names[i] in r[..q]
    {
      VisitAllOrdered(g, names, depth, i, j, q);
    }
  }

  /** Every name in the list is a key of the table built from it. */
  lemma NamesInTable<T>(ss: seq<T>, name: T -> string)
    ensures forall x :: x in MapSeq(ss, name) ==> x in TableBy(ss, name)
  {
  }

  /** The struct order over the table of structs: `find_deps` on every
      struct, then `add_xml` on each of `names`. */
  function OrderOf(table: map<string, Node>, enums: set<string>, names: seq<string>, depth: nat): (r: Raises<seq<string>>)
    requires forall x :: x in names ==> x in table
    ensures r.Ok? ==> forall x :: x in r.value ==> x in table
  {
    if !DepsKnown(table, enums) then Raise(AssertionError)
    else
      DepGraphClosed(table, enums);
      OrderFrom(DepGraph(table, enums), names, depth)
  }

  /** The same over the graph `find_deps` records. */
  lemma OrderOfSpec(table: map<string, Node>, enums: set<string>, names: seq<string>, depth: nat)
    requires (forall x :: x in names ==> x in table) && OrderOf(table, enums, names, depth).Ok?
    ensures var r := OrderOf(table, enums, names, depth).value; var g := DepGraph(table, enums);
      NoDup(r) && DepsBefore(g, r) && (forall x :: x in names ==> x in r) &&
      (forall x :: x in r <==> ReachedFrom(g, names, x)) &&
      forall i, j, q ::
        (0 <= i < j < |names| && 0 <= q < |r| && r[q] == names[j] &&
         !ReachedFrom(g, names[..i + 1], names[j])) ==> names[i] in r[..q]
  {
    DepGraphClosed(table, enums);
    OrderFromSpec(DepGraph(table, enums), names, depth);
  }

  /** The keys of `sorted_structs`. */
  function StructOrder(structs: seq<Node>, enums: seq<Node>, depth: nat): (r: Raises<seq<string>>)
    ensures r.Ok? ==> forall x :: x in r.value ==> x in TableBy(structs, NameOf)
  {
    NamesInTable(structs, NameOf);
    OrderOf(TableBy(structs, NameOf), EnumNames(enums), MapSeq(structs, NameOf), depth)
  }

  /** The struct order names each struct once, after the structs it
      depends on, leaves none out and adds nothing else, and otherwise
      keeps the order of `structs`. */
  lemma StructOrderSpec(structs: seq<Node>, enums: seq<Node>, depth: nat)
    requires StructOrder(structs, enums, depth).Ok?
    ensures var r := StructOrder(structs, enums, depth).value;
      var g := DepGraph(TableBy(structs, NameOf), EnumNames(enums)); var names := MapSeq(structs, NameOf);
      NoDup(r) && DepsBefore(g, r) && (forall s :: s in structs ==> NameOf(s) in r) &&
      (forall x :: x in r ==> x in names) &&
      forall i, j, q ::
        (0 <= i < j < |structs| && 0 <= q < |r| && r[q] == NameOf(structs[j]) &&
         !ReachedFrom(g, names[..i + 1], NameOf(structs[j]))) ==> NameOf(structs[i]) in r[..q]
  {
    var r := StructOrder(structs, enums, depth).value;
    var table := TableBy(structs, NameOf);
    var names := MapSeq(structs, NameOf);
    NamesInTable(structs, NameOf);
    MapSeqHas(structs, NameOf);
    OrderOfSpec(table, EnumNames(enums), names, depth);
    forall x | x in r ensures x in names {
      assert x in table;
      var i :| 0 <= i < |structs| && structs[i] == table[x];
      assert names[i] == x;
    }
  }

  /** `[t[n] for n in names]`. */
  function Pick<T>(t: map<string, T>, names: seq<string>): (r: seq<T>)
    requires forall x :: x in names ==> x in t
    ensures |r| == |names| && forall i :: 0 <= i < |names| ==> r[i] == t[names[i]]
  {
    if |names| == 0 then [] else [t[names[0]]] + Pick(t, names[1..])
  }

  /** Looking names up in a table built by name gives elements of the
      list with those names. */
  lemma PickNames<T>(ss: seq<T>, name: T -> string, names: seq<string>)
    requires forall x :: x in names ==> x in TableBy(ss, name)
    ensures MapSeq(Pick(TableBy(ss, name), names), name) == names
    ensures forall n :: n in Pick(TableBy(ss, name), names) ==> n in ss
  {
    var r := Pick(TableBy(ss, name), names);
    assert forall i :: 0 <= i < |r| ==> r[i] in ss && name(r[i]) == names[i];
  }

  /** `list(sorted_structs.values())`: the struct registered under each
      name, in that order. */
  function StructBlock(structs: seq<Node>, enums: seq<Node>, depth: nat): (r: Raises<seq<Node>>)
    ensures r.Ok? ==> StructOrder(structs, enums, depth).Ok?
    ensures r.Ok? ==> MapSeq(r.value, NameOf) == StructOrder(structs, enums, depth).value
    ensures r.Ok? ==> forall n :: n in r.value ==> n in structs
  {
    match StructOrder(structs, enums, depth)
    case Raise(e) => Raise(e)
    case Ok(names) =>
      PickNames(structs, NameOf, names);
      Ok(Pick(TableBy(structs, NameOf), names))
  }

  /** The struct step of `sort_xml` at a given recursion depth. */
  function StructStep(depth: nat): (seq<Node>, seq<Node>) -> Raises<seq<Node>> {
    (structs, enums) => StructBlock(structs, enums, depth)
  }

  /** A struct step that returns structs it was given. */
  ghost predicate Picks(step: (seq<Node>, seq<Node>) -> Raises<seq<Node>>) {
    forall s, e :: step(s, e).Ok? ==> forall n :: n in step(s, e).value ==> n in s
  }

  lemma StructStepPicks(depth: nat)
    ensures Picks(StructStep(depth))
  {
  }

  // -------------------------------------------------------------------
  // sort_xml
  // -------------------------------------------------------------------

  /** The five groups of the root's new children before
      `process_attribs`: imports, enums, structs, instructions,
      registers; any other child is dropped.  Raises as the first
      failing step does. */
  function PartsBy(cs: seq<Node>, byName: KeyFun, byValue: KeyFun, byStart: KeyFun,
                   step: (seq<Node>, seq<Node>) -> Raises<seq<Node>>): (r: Raises<seq<seq<Node>>>)
    ensures r.Ok? ==> |r.value| == 5
  {
    match Group(cs, "enum", byName, byValue)
    case Raise(e) => Raise(e)
    case Ok(enums) =>
      match Group(cs, "struct", byName, byStart)
      case Raise(e) => Raise(e)
      case Ok(structs) =>
        match step(structs, enums)
        case Raise(e) => Raise(e)
        case Ok(ordered) =>
          match Group(cs, "instruction", byName, byStart)
          case Raise(e) => Raise(e)
          case Ok(instructions) =>
            match Group(cs, "register", byName, byStart)
            case Raise(e) => Raise(e)
            case Ok(registers) => Ok([Select(cs, "import"), enums, ordered, instructions, registers])
  }

  /** The groups `sort_xml` builds, with its own keys. */
  function Parts(root: Node, depth: nat): (r: Raises<seq<seq<Node>>>)
    ensures r.Ok? ==> |r.value| == 5
  {
    PartsBy(root.children, KeyFn(ByName), KeyFn(ByValue), KeyFn(ByStart), StructStep(depth))
  }

  function Concat5(parts: seq<seq<Node>>): seq<Node>
    requires |parts| == 5
  {
    parts[0] + parts[1] + parts[2] + parts[3] + parts[4]
  }

  /** `sort_xml`: regroups and sorts the root's children, then runs
      `process_attribs` on each of them.  `depth` is the recursion depth
      Python allows `add_xml`. */
  function SortXml(root: Node, depth: nat): Raises<Node> {
    match Parts(root, depth)
    case Raise(e) => Raise(e)
    case Ok(parts) =>
      match ProcessAll(Concat5(parts))
      case Raise(e) => Raise(e)
      case Ok(ps) => Ok(root.(children := ps))
  }

  /** The position of a tag's group among the root's children. */
  function BlockOf(tag: string): nat {
    if tag == "import" then 0
    else if tag == "enum" then 1
    else if tag == "struct" then 2
    else if tag == "instruction" then 3
    else if tag == "register" then 4
    else 5
  }

  /** Imports, then enums, structs, instructions and registers, and
      nothing else. */
  predicate Grouped(cs: seq<Node>) {
    (forall i :: 0 <= i < |cs| ==> BlockOf(cs[i].tag) < 5) &&
    forall i, j :: 0 <= i < j < |cs| ==> BlockOf(cs[i].tag) <= BlockOf(cs[j].tag)
  }

  /** Every element of a list has the tag. */
  predicate AllTagged(ns: seq<Node>, tag: string) {
    forall n :: n in ns ==> n.tag == tag
  }

  lemma GroupTagged(cs: seq<Node>, tag: string, byName: KeyFun, byChild: KeyFun)
    requires Group(cs, tag, byName, byChild).Ok?
    ensures AllTagged(Group(cs, tag, byName, byChild).value, tag)
  {
    GroupFrom(cs, tag, byName, byChild);
  }

  /** Each group holds only its own tag. */
  lemma PartsTagged(cs: seq<Node>, byName: KeyFun, byValue: KeyFun, byStart: KeyFun,
                    step: (seq<Node>, seq<Node>) -> Raises<seq<Node>>)
    requires PartsBy(cs, byName, byValue, byStart, step).Ok? && Picks(step)
    ensures var parts := PartsBy(cs, byName, byValue, byStart, step).value;
      AllTagged(parts[0], "import") && AllTagged(parts[1], "enum") && AllTagged(parts[2], "struct") &&
      AllTagged(parts[3], "instruction") && AllTagged(parts[4], "register")
  {
    GroupTagged(cs, "enum", byName, byValue);
    GroupTagged(cs, "struct", byName, byStart);
    GroupTagged(cs, "instruction", byName, byStart);
    GroupTagged(cs, "register", byName, byStart);
  }

  /** Lists tagged with the five groups in turn come out grouped. */
  lemma ConcatGrouped(parts: seq<seq<Node>>)
    requires |parts| == 5
    requires AllTagged(parts[0], "import") && AllTagged(parts[1], "enum") && AllTagged(parts[2], "struct")
    requires AllTagged(parts[3], "instruction") && AllTagged(parts[4], "register")
    ensures Grouped(Concat5(parts))
  {
    var all := Concat5(parts);
    var a, b, c, d := |parts[0]|, |parts[0]| + |parts[1]|, |parts[0]| + |parts[1]| + |parts[2]|,
      |parts[0]| + |parts[1]| + |parts[2]| + |parts[3]|;
    forall i | 0 <= i < |all|
      ensures BlockOf(all[i].tag) == (if i < a then 0 else if i < b then 1 else if i < c then 2 else if i < d then 3 else 4)
    {
      if i < a { assert all[i] == parts[0][i]; }
      else if i < b { assert all[i] == parts[1][i - a]; }
      else if i < c { assert all[i] == parts[2][i - b]; }
      else if i < d { assert all[i] == parts[3][i - c]; }
      else { assert all[i] == parts[4][i - d]; }
    }
  }

  /** The enums, instructions and registers come out ordered by name. */
  lemma PartsSorted(cs: seq<Node>, byName: KeyFun, byValue: KeyFun, byStart: KeyFun,
                    step: (seq<Node>, seq<Node>) -> Raises<seq<Node>>)
    requires PartsBy(cs, byName, byValue, byStart, step).Ok? && IgnoresChildren(byName)
    ensures var parts := PartsBy(cs, byName, byValue, byStart, step).value;
      KeyOrdered(parts[1], byName) && KeyOrdered(parts[3], byName) && KeyOrdered(parts[4], byName)
  {
    GroupSorted(cs, "enum", byName, byValue);
    GroupSorted(cs, "instruction", byName, byStart);
    GroupSorted(cs, "register", byName, byStart);
  }

  /** Every element has a name, and the names never descend. */
  predicate NameOrdered(ns: seq<Node>) {
    (forall i :: 0 <= i < |ns| ==> GetName(ns[i]).Ok?) &&
    forall i, j :: 0 <= i < j < |ns| ==> !StrLt(NameOf(ns[j]), NameOf(ns[i]))
  }

  /** In `sort_xml`'s groups the enums, instructions and registers are in
      name order. */
  lemma PartsNameOrdered(root: Node, depth: nat)
    requires Parts(root, depth).Ok?
    ensures var parts := Parts(root, depth).value;
      NameOrdered(parts[1]) && NameOrdered(parts[3]) && NameOrdered(parts[4])
  {
    NameKey();
    PartsSorted(root.children, KeyFn(ByName), KeyFn(ByValue), KeyFn(ByStart), StructStep(depth));
  }

  /** One of `names` that is not after `a` needs `b`, directly or
      transitively. */
  ghost predicate NeededUpTo(g: Graph, names: seq<string>, a: string, b: string) {
    exists k :: 0 <= k < |names| && !StrLt(a, names[k]) && Reaches(g, names[k], b)
  }

  /** Of two names of `r`, the smaller comes first unless the larger is
      needed by one of `names` that is not after the smaller. */
  ghost predicate AlphabeticalUnlessNeeded(g: Graph, names: seq<string>, r: seq<string>) {
    forall p, q ::
      (0 <= p < |r| && 0 <= q < |r| && StrLt(r[p], r[q]) &&
       !NeededUpTo(g, names, r[p], r[q])) ==> p < q
  }

  /** No name is below an earlier one. */
  predicate NamesAscending(names: seq<string>) {
    forall i, j :: 0 <= i < j < |names| ==> !StrLt(names[j], names[i])
  }

  /** `names[i]` comes before a later `names[j]` in `r` unless
      `names[j]` is reached from one of `names[..i+1]`. */
  ghost predicate FollowsUnlessReached(g: Graph, names: seq<string>, r: seq<string>) {
    forall i, j, q ::
      (0 <= i < j < |names| && 0 <= q < |r| && r[q] == names[j] &&
       !ReachedFrom(g, names[..i + 1], names[j])) ==> names[i] in r[..q]
  }

  lemma VisitOrderPair(g: Graph, names: seq<string>, r: seq<string>, p: nat, q: nat)
    requires NamesAscending(names) && NoDup(r) && (forall x :: x in r ==> x in names)
    requires FollowsUnlessReached(g, names, r)
    requires p < |r| && q < |r| && StrLt(r[p], r[q]) && !NeededUpTo(g, names, r[p], r[q])
    ensures p < q
  {
    var a, b := r[p], r[q];
    assert a in names && b in names;
    var i :| 0 <= i < |names| && names[i] == a;
    var j :| 0 <= j < |names| && names[j] == b;
    assert i < j by {
      StrLtIrreflexive(a);
    }
    assert !ReachedFrom(g, names[..i + 1], names[j]) by {
      forall k | 0 <= k <= i ensures !StrLt(a, names[k]) {
        StrLtIrreflexive(names[k]);
      }
    }
    assert names[i] in r[..q];
    var p' :| 0 <= p' < q && r[p'] == a;
  }

  /** An order that follows a name-ordered list wherever the
      dependencies allow is alphabetical wherever they allow. */
  lemma VisitOrderAlphabetical(g: Graph, names: seq<string>, r: seq<string>)
    requires NamesAscending(names) && NoDup(r) && (forall x :: x in r ==> x in names)
    requires FollowsUnlessReached(g, names, r)
    ensures AlphabeticalUnlessNeeded(g, names, r)
  {
    forall p, q | 0 <= p < |r| && 0 <= q < |r| && StrLt(r[p], r[q]) && !NeededUpTo(g, names, r[p], r[q])
      ensures p < q
    {
      VisitOrderPair(g, names, r, p, q);
    }
  }

  /** Over structs listed in name order, the struct order is
      alphabetical wherever the dependencies allow: of two structs, the
      one with the smaller name comes first unless the other is needed by
      a struct whose name is not after the smaller one. */
  lemma StructOrderAlphabetical(structs: seq<Node>, enums: seq<Node>, depth: nat)
    requires StructOrder(structs, enums, depth).Ok? && NamesAscending(MapSeq(structs, NameOf))
    ensures var g := DepGraph(TableBy(structs, NameOf), EnumNames(enums));
      AlphabeticalUnlessNeeded(g, MapSeq(structs, NameOf), StructOrder(structs, enums, depth).value)
  {
    var g := DepGraph(TableBy(structs, NameOf), EnumNames(enums));
    var names := MapSeq(structs, NameOf);
    var r := StructOrder(structs, enums, depth).value;
    StructOrderSpec(structs, enums, depth);
    assert FollowsUnlessReached(g, names, r);
    VisitOrderAlphabetical(g, names, r);
  }

  /** The struct group of the parts is what the struct step makes of
      the struct and enum groups. */
  lemma PartsStructStep(cs: seq<Node>, byName: KeyFun, byValue: KeyFun, byStart: KeyFun,
                        step: (seq<Node>, seq<Node>) -> Raises<seq<Node>>)
    requires PartsBy(cs, byName, byValue, byStart, step).Ok?
    ensures Group(cs, "struct", byName, byStart).Ok? && Group(cs, "enum", byName, byValue).Ok?
    ensures step(Group(cs, "struct", byName, byStart).value, Group(cs, "enum", byName, byValue).value)
      == Ok(PartsBy(cs, byName, byValue, byStart, step).value[2])
  {
  }

  /** The struct block of `sort_xml` is alphabetical wherever the
      dependencies allow. */
  lemma StructBlockAlphabetical(root: Node, depth: nat)
    requires Parts(root, depth).Ok?
    ensures var structs := Group(root.children, "struct", KeyFn(ByName), KeyFn(ByStart)).value;
      var enums := Group(root.children, "enum", KeyFn(ByName), KeyFn(ByValue)).value;
      var g := DepGraph(TableBy(structs, NameOf), EnumNames(enums));
      AlphabeticalUnlessNeeded(g, MapSeq(structs, NameOf), MapSeq(Parts(root, depth).value[2], NameOf))
  {
    var structs := Group(root.children, "struct", KeyFn(ByName), KeyFn(ByStart)).value;
    var enums := Group(root.children, "enum", KeyFn(ByName), KeyFn(ByValue)).value;
    PartsStructStep(root.children, KeyFn(ByName), KeyFn(ByValue), KeyFn(ByStart), StructStep(depth));
    assert StructBlock(structs, enums, depth) == Ok(Parts(root, depth).value[2]);
    NameKey();
    GroupSorted(root.children, "struct", KeyFn(ByName), KeyFn(ByStart));
    assert NamesAscending(MapSeq(structs, NameOf));
    StructOrderAlphabetical(structs, enums, depth);
  }

  /** The regrouped elements are as well formed as the root's children. */
  lemma PartsWellFormed(cs: seq<Node>, byName: KeyFun, byValue: KeyFun, byStart: KeyFun,
                        step: (seq<Node>, seq<Node>) -> Raises<seq<Node>>)
    requires PartsBy(cs, byName, byValue, byStart, step).Ok? && Picks(step)
    requires forall c :: c in cs ==> WellFormed(c)
    ensures forall n :: n in Concat5(PartsBy(cs, byName, byValue, byStart, step).value) ==> WellFormed(n)
  {
    var parts := PartsBy(cs, byName, byValue, byStart, step).value;
    GroupWellFormed(cs, "enum", byName, byValue);
    GroupWellFormed(cs, "struct", byName, byStart);
    GroupWellFormed(cs, "instruction", byName, byStart);
    GroupWellFormed(cs, "register", byName, byStart);
    assert forall k, n :: 0 <= k < 5 && n in parts[k] ==> WellFormed(n);
  }

  /** What `sort_xml` makes of a document: the root itself unchanged but
      for its children, which are the regrouped elements, in the five
      groups in order, each put through `process_attribs`. */
  lemma SortXmlSpec(root: Node, depth: nat)
    requires SortXml(root, depth).Ok? && forall c :: c in root.children ==> WellFormed(c)
    ensures var r := SortXml(root, depth).value; var elems := Concat5(Parts(root, depth).value);
      r.tag == root.tag && r.attrib == root.attrib && r.text == root.text && r.tail == root.tail &&
      |r.children| == |elems| && Grouped(r.children) &&
      forall i :: 0 <= i < |elems| ==> ProcessAttribs(elems[i]) == Ok(r.children[i]) && Canonical(r.children[i])
  {
    var parts := Parts(root, depth).value;
    var elems := Concat5(parts);
    var r := SortXml(root, depth).value;
    StructStepPicks(depth);
    PartsTagged(root.children, KeyFn(ByName), KeyFn(ByValue), KeyFn(ByStart), StructStep(depth));
    PartsWellFormed(root.children, KeyFn(ByName), KeyFn(ByValue), KeyFn(ByStart), StructStep(depth));
    ConcatGrouped(parts);
    ProcessAllPointwise(elems);
    forall i | 0 <= i < |elems| ensures r.children[i].tag == elems[i].tag && Canonical(r.children[i]) {
      assert elems[i] in elems;
      ProcessAttribsSpec(elems[i]);
    }
  }

  // -------------------------------------------------------------------
  // filter_engines
  // -------------------------------------------------------------------

  /** An item `filter_engines` keeps: anything but an instruction whose
      `engine` list shares no engine with the requested ones. */
  predicate KeepItem(item: Node, engines: set<string>) {
    !(item.tag == "instruction" && Lookup(item.attrib, "engine").Some? &&
      forall e :: e in Split(Lookup(item.attrib, "engine").value, '|') ==> e !in engines)
  }

  /** The elements that pass `keep`, in order. */
  function Filter<T>(xs: seq<T>, keep: T -> bool): seq<T> {
    if |xs| == 0 then []
    else Filter(xs[..|xs| - 1], keep) + (if keep(xs[|xs| - 1]) then [xs[|xs| - 1]] else [])
  }

  /** The test `filter_engines` applies to each item. */
  function Keeps(engines: set<string>): Node -> bool {
    n => KeepItem(n, engines)
  }

  /** The items `filter_engines` keeps, in order. */
  function Kept(cs: seq<Node>, engines: set<string>): seq<Node> {
    Filter(cs, Keeps(engines))
  }

  /** One more item: the filtered prefix grows by it exactly when it
      passes. */
  lemma FilterStep<T>(xs: seq<T>, i: nat, keep: T -> bool)
    requires i < |xs|
    ensures xs[..i + 1] == xs[..i] + [xs[i]]
    ensures Filter(xs[..i + 1], keep) == Filter(xs[..i], keep) + (if keep(xs[i]) then [xs[i]] else [])
  {
    assert xs[..i + 1][..i] == xs[..i];
  }

  /** An element is kept exactly when it is an item that passes. */
  lemma {:induction false} FilterMembers<T>(xs: seq<T>, keep: T -> bool)
    ensures forall x :: x in Filter(xs, keep) <==> x in xs && keep(x)
  {
    if |xs| > 0 {
      FilterMembers(xs[..|xs| - 1], keep);
      assert xs == xs[..|xs| - 1] + [xs[|xs| - 1]];
    }
  }

  /** Filtering splits over concatenation, so the kept items keep their
      relative order. */
  lemma {:induction false} FilterAppend<T>(a: seq<T>, b: seq<T>, keep: T -> bool)
    ensures Filter(a + b, keep) == Filter(a, keep) + Filter(b, keep)
  {
    if |b| == 0 {
      assert a + b == a;
    } else {
      var init := b[..|b| - 1];
      FilterAppend(a, init, keep);
      assert (a + b)[..|a + b| - 1] == a + init;
    }
  }

  /** Nothing is dropped exactly when every item passes. */
  lemma {:induction false} FilterAll<T>(xs: seq<T>, keep: T -> bool)
    ensures Filter(xs, keep) == xs <==> forall i :: 0 <= i < |xs| ==> keep(xs[i])
  {
    if |xs| > 0 {
      var init, x := xs[..|xs| - 1], xs[|xs| - 1];
      FilterAll(init, keep);
      FilterShorter(init, keep);
      assert xs == init + [x];
      if Filter(xs, keep) == xs {
        assert keep(x);
        assert Filter(init, keep) == Filter(xs, keep)[..|init|] == init;
      }
    }
  }

  lemma {:induction false} FilterShorter<T>(xs: seq<T>, keep: T -> bool)
    ensures |Filter(xs, keep)| <= |xs|
  {
    if |xs| > 0 {
      FilterShorter(xs[..|xs| - 1], keep);
    }
  }

  /** Filtering twice drops nothing more. */
  lemma {:induction false} FilterIdempotent<T>(xs: seq<T>, keep: T -> bool)
    ensures Filter(Filter(xs, keep), keep) == Filter(xs, keep)
  {
    if |xs| > 0 {
      var init, x := xs[..|xs| - 1], xs[|xs| - 1];
      var last := if keep(x) then [x] else [];
      assert Filter(last, keep) == last by {
        if keep(x) {
          assert [x][..0] == [];
        }
      }
      calc {
        Filter(Filter(xs, keep), keep);
        Filter(Filter(init, keep) + last, keep);
        { FilterAppend(Filter(init, keep), last, keep); }
        Filter(Filter(init, keep), keep) + Filter(last, keep);
        { FilterIdempotent(init, keep); }
        Filter(init, keep) + last;
      }
    }
  }

  /** An instruction tagged with the engines `es`, written `a|b|c`, is
      dropped exactly when none of them is requested. */
  lemma DropsUnrequested(item: Node, es: seq<string>, engines: set<string>)
    requires item.tag == "instruction" && |es| >= 1 && forall e :: e in es ==> '|' !in e
    requires Lookup(item.attrib, "engine") == Some(Join(es, '|'))
    ensures !KeepItem(item, engines) <==> forall e :: e in es ==> e !in engines
  {
    JoinSplit(es, '|');
  }

  /** A parsed genxml document. */
  class GenXml {
    var root: Node

    constructor(root: Node)
      ensures this.root == root
    {
      this.root := root;
    }

    /** `filter_engines`: drops the instructions meant for none of
        `engines`; the root is replaced only when something was dropped. */
    method FilterEngines(engines: set<string>)
      modifies this
      ensures root == old(root).(children := Kept(old(root).children, engines))
    {
      var cs := root.children;
      var changed := false;
      var items: seq<Node> := [];
      var i := 0;
      while i < |cs|
        invariant 0 <= i <= |cs| && root == old(root)
        invariant items == Filter(cs[..i], Keeps(engines))
        invariant !changed ==> items == cs[..i]
      {
        var item := cs[i];
        FilterStep(cs, i, Keeps(engines));
        if !KeepItem(item, engines) {
          changed := true;
        } else {
          items := items + [item];
        }
        i := i + 1;
      }
      assert cs[..|cs|] == cs;
      if changed {
        root := root.(children := items);
      }
    }
  }
}
