/*
 * Attribute canonicalisation and the tree comparison of the genxml
 * canonicaliser (intel_genxml.py, `process_attribs` and
 * `node_validator`).
 */
module GenAttribs {
  import opened GenTree
  import opened GenSort

  // -------------------------------------------------------------------
  // process_attribs
  // -------------------------------------------------------------------

  /** `valid.index(k)`: the first position of `k`. */
  function IndexOf(valid: seq<string>, k: string): (r: nat)
    requires k in valid
    ensures r < |valid| && valid[r] == k && forall i :: 0 <= i < r ==> valid[i] != k
  {
    if valid[0] == k then 0 else 1 + IndexOf(valid[1..], k)
  }

  /** The attributes whose key the descriptor lists, in their order. */
  function Pruned(attrib: seq<(string, string)>, valid: seq<string>): (r: seq<(string, string)>)
    ensures forall p :: p in r <==> p in attrib && p.0 in valid
    ensures forall i :: 0 <= i < |r| ==> r[i].0 in valid
  {
    if |attrib| == 0 then []
    else (if attrib[0].0 in valid then [attrib[0]] else []) + Pruned(attrib[1..], valid)
  }

  /** Each attribute paired with its sort key, its descriptor position. */
  function Ranked(attrib: seq<(string, string)>, valid: seq<string>): (r: seq<(Key, (string, string))>)
    requires forall i :: 0 <= i < |attrib| ==> attrib[i].0 in valid
    ensures |r| == |attrib|
    ensures forall i :: 0 <= i < |r| ==> r[i] == (Num(IndexOf(valid, attrib[i].0)), attrib[i])
  {
    if |attrib| == 0 then [] else [(Num(IndexOf(valid, attrib[0].0)), attrib[0])] + Ranked(attrib[1..], valid)
  }

  /** The new attribute dictionary of one element: pruned to the
      descriptor, then sorted by descriptor position. */
  function SortAttribs(attrib: seq<(string, string)>, valid: seq<string>): seq<(string, string)> {
    Items(SortByKey(Ranked(Pruned(attrib, valid), valid)))
  }

  /** `process_attribs`: rewrites the attributes of the element and of
      every element below it; an element whose tag has no descriptor
      raises KeyError, the first one in document order. */
  function ProcessAttribs(n: Node): Raises<Node>
    decreases n, 1
  {
    match Desc(n.tag)
    case None => Raise(KeyError(n.tag))
    case Some(valid) =>
      match ProcessAll(n.children)
      case Raise(e) => Raise(e)
      case Ok(cs) => Ok(Node(n.tag, SortAttribs(n.attrib, valid), n.text, n.tail, cs))
  }

  /** `process_attribs` on a list of siblings, in order. */
  function ProcessAll(cs: seq<Node>): (r: Raises<seq<Node>>)
    ensures r.Ok? ==> |r.value| == |cs|
    decreases cs, 0
  {
    if |cs| == 0 then Ok([])
    else
      match ProcessAttribs(cs[0])
      case Raise(e) => Raise(e)
      case Ok(c) =>
        match ProcessAll(cs[1..])
        case Raise(e) => Raise(e)
        case Ok(rest) => Ok([c] + rest)
  }

  /** Every tag in the tree has a descriptor. */
  predicate TagsDescribed(n: Node) {
    Desc(n.tag).Some? && forall i :: 0 <= i < |n.children| ==> TagsDescribed(n.children[i])
  }

  /** The attribute keys are listed in the descriptor, each once, and in
      the descriptor's order. */
  predicate InDescOrder(attrib: seq<(string, string)>, valid: seq<string>) {
    (forall i :: 0 <= i < |attrib| ==> attrib[i].0 in valid) &&
    forall i, j :: 0 <= i < j < |attrib| ==> IndexOf(valid, attrib[i].0) < IndexOf(valid, attrib[j].0)
  }

  /** The form `process_attribs` leaves a tree in. */
  predicate Canonical(n: Node) {
    Desc(n.tag).Some? && InDescOrder(n.attrib, Desc(n.tag).value) &&
    forall i :: 0 <= i < |n.children| ==> Canonical(n.children[i])
  }

  /** One element's new attributes: the descriptor's keys only, each
      with its old value. */
  lemma SortAttribsMembers(attrib: seq<(string, string)>, valid: seq<string>)
    ensures forall p :: p in SortAttribs(attrib, valid) <==> p in attrib && p.0 in valid
  {
    var pruned := Pruned(attrib, valid);
    var ranked := Ranked(pruned, valid);
    var sorted := SortByKey(ranked);
    var r := Items(sorted);
    SortByKeySpec(ranked);
    SameElements(sorted, ranked);
    forall p ensures p in r <==> p in pruned {
      if p in r {
        var i :| 0 <= i < |r| && r[i] == p;
        assert sorted[i] in ranked;
        var j :| 0 <= j < |ranked| && ranked[j] == sorted[i];
        assert p == pruned[j];
      }
      if p in pruned {
        var j :| 0 <= j < |pruned| && pruned[j] == p;
        assert ranked[j] in sorted;
        var i :| 0 <= i < |sorted| && sorted[i] == ranked[j];
        assert r[i] == p;
      }
    }
  }

  /** ... and in descriptor order, each key once. */
  lemma SortAttribsOrder(attrib: seq<(string, string)>, valid: seq<string>)
    requires UniqueKeys(attrib)
    ensures InDescOrder(SortAttribs(attrib, valid), valid)
  {
    var pruned := Pruned(attrib, valid);
    PrunedUnique(attrib, valid);
    var ranked := Ranked(pruned, valid);
    var sorted := SortByKey(ranked);
    var r := Items(sorted);
    SortByKeySpec(ranked);
    SameElements(sorted, ranked);
    forall k ensures |WithKey(sorted, k)| <= 1 {
      DistinctKeysWithKey(pruned, valid, k);
    }
    forall i | 0 <= i < |r| ensures r[i].0 in valid && sorted[i].0 == Num(IndexOf(valid, r[i].0)) {
      assert sorted[i] in ranked;
    }
    StrictlySorted(sorted);
    forall i, j | 0 <= i < j < |r| ensures IndexOf(valid, r[i].0) < IndexOf(valid, r[j].0) {
      assert KeyLt(sorted[i].0, sorted[j].0);
    }
  }

  /** A sorted list whose keys are distinct is strictly increasing. */
  lemma StrictlySorted<T>(xs: seq<(Key, T)>)
    requires Sorted(xs) && forall k :: |WithKey(xs, k)| <= 1
    ensures forall i, j :: 0 <= i < j < |xs| ==> KeyLt(xs[i].0, xs[j].0)
  {
    forall i, j | 0 <= i < j < |xs| ensures KeyLt(xs[i].0, xs[j].0) {
      KeyLtTotal(xs[i].0, xs[j].0);
      if xs[i].0 == xs[j].0 {
        TwoWithKey(xs, i, j);
      }
    }
  }

  lemma SameElements<T>(xs: seq<T>, ys: seq<T>)
    requires multiset(xs) == multiset(ys)
    ensures forall e :: e in xs <==> e in ys
  {
    forall e ensures e in xs <==> e in ys {
      assert e in xs <==> e in multiset(xs);
      assert e in ys <==> e in multiset(ys);
    }
  }

  lemma {:induction false} PrunedUnique(attrib: seq<(string, string)>, valid: seq<string>)
    requires UniqueKeys(attrib)
    ensures UniqueKeys(Pruned(attrib, valid))
  {
    if |attrib| > 0 {
      assert UniqueKeys(attrib[1..]) by {
        forall i, j | 0 <= i < j < |attrib[1..]| ensures attrib[1..][i].0 != attrib[1..][j].0 {
          assert attrib[1..][i] == attrib[i + 1] && attrib[1..][j] == attrib[j + 1];
        }
      }
      PrunedUnique(attrib[1..], valid);
      var rest := Pruned(attrib[1..], valid);
      forall p | p in rest ensures p.0 != attrib[0].0 {
        var j :| 0 <= j < |attrib[1..]| && attrib[1..][j] == p;
        assert attrib[j + 1] == p;
      }
    }
  }

  /** Distinct attribute keys give distinct sort keys. */
  lemma {:induction false} DistinctKeysWithKey(attrib: seq<(string, string)>, valid: seq<string>, k: Key)
    requires (forall i :: 0 <= i < |attrib| ==> attrib[i].0 in valid) && UniqueKeys(attrib)
    ensures |WithKey(Ranked(attrib, valid), k)| <= 1
  {
    var ranked := Ranked(attrib, valid);
    if |attrib| > 0 {
      assert Ranked(attrib, valid)[1..] == Ranked(attrib[1..], valid);
      if ranked[0].0 == k {
        forall i | 0 <= i < |ranked[1..]| ensures ranked[1..][i].0 != k {
          assert ranked[1..][i] == ranked[i + 1];
          assert attrib[i + 1].0 != attrib[0].0;
        }
        NoKey(ranked[1..], k);
      } else {
        assert UniqueKeys(attrib[1..]) by {
          forall i, j | 0 <= i < j < |attrib[1..]| ensures attrib[1..][i].0 != attrib[1..][j].0 {
            assert attrib[1..][i] == attrib[i + 1] && attrib[1..][j] == attrib[j + 1];
          }
        }
        DistinctKeysWithKey(attrib[1..], valid, k);
      }
    }
  }

  /** Two positions with one key put two elements in that key's list. */
  lemma {:induction false} TwoWithKey<T>(xs: seq<(Key, T)>, i: nat, j: nat)
    requires i < j < |xs| && xs[i].0 == xs[j].0
    ensures |WithKey(xs, xs[i].0)| >= 2
  {
    if i == 0 {
      OneWithKey(xs[1..], j - 1, xs[0].0);
    } else {
      TwoWithKey(xs[1..], i - 1, j - 1);
    }
  }

  lemma {:induction false} OneWithKey<T>(xs: seq<(Key, T)>, j: nat, k: Key)
    requires j < |xs| && xs[j].0 == k
    ensures |WithKey(xs, k)| >= 1
  {
    if j > 0 {
      OneWithKey(xs[1..], j - 1, k);
    }
  }

  /** `process_attribs` raises exactly when some tag in the tree has no
      descriptor. */
  lemma {:induction false} ProcessAttribsSucceeds(n: Node)
    ensures ProcessAttribs(n).Ok? <==> TagsDescribed(n)
    decreases n, 1
  {
    ProcessAllSucceeds(n.children);
  }

  lemma {:induction false} ProcessAllSucceeds(cs: seq<Node>)
    ensures ProcessAll(cs).Ok? <==> forall i :: 0 <= i < |cs| ==> TagsDescribed(cs[i])
    decreases cs, 0
  {
    if |cs| > 0 {
      ProcessAttribsSucceeds(cs[0]);
      ProcessAllSucceeds(cs[1..]);
      if forall i :: 0 <= i < |cs[1..]| ==> TagsDescribed(cs[1..][i]) {
        forall i | 0 <= i < |cs| && i > 0 ensures TagsDescribed(cs[i]) {
          assert cs[i] == cs[1..][i - 1];
        }
      }
      if forall i :: 0 <= i < |cs| ==> TagsDescribed(cs[i]) {
        forall i | 0 <= i < |cs[1..]| ensures TagsDescribed(cs[1..][i]) {
          assert cs[1..][i] == cs[i + 1];
        }
      }
    }
  }

  /** What `process_attribs` makes of a tree: the same tags, texts, tails
      and shape; at every element the attributes its descriptor lists,
      each with its old value, in descriptor order. */
  lemma {:induction false} ProcessAttribsSpec(n: Node)
    requires WellFormed(n) && ProcessAttribs(n).Ok?
    ensures var m := ProcessAttribs(n).value;
      m.tag == n.tag && m.text == n.text && m.tail == n.tail && |m.children| == |n.children| &&
      (forall p :: p in m.attrib <==> p in n.attrib && p.0 in Desc(n.tag).value) &&
      (forall i :: 0 <= i < |n.children| ==> ProcessAttribs(n.children[i]) == Ok(m.children[i])) &&
      Canonical(m)
    decreases n
  {
    var valid := Desc(n.tag).value;
    var m := ProcessAttribs(n).value;
    SortAttribsMembers(n.attrib, valid);
    SortAttribsOrder(n.attrib, valid);
    ProcessAllPointwise(n.children);
    forall i | 0 <= i < |n.children| ensures Canonical(m.children[i]) {
      ProcessAttribsSpec(n.children[i]);
    }
  }

  lemma {:induction false} ProcessAllPointwise(cs: seq<Node>)
    requires ProcessAll(cs).Ok?
    ensures forall i :: 0 <= i < |cs| ==> ProcessAttribs(cs[i]) == Ok(ProcessAll(cs).value[i])
  {
    if |cs| > 0 {
      ProcessAllPointwise(cs[1..]);
      var r := ProcessAll(cs).value;
      forall i | 0 < i < |cs| ensures ProcessAttribs(cs[i]) == Ok(r[i]) {
        assert cs[i] == cs[1..][i - 1];
      }
    }
  }

  /** A tree `process_attribs` has already canonicalised is left as it
      is: the pass is idempotent. */
  lemma {:induction false} ProcessAttribsIdempotent(m: Node)
    requires WellFormed(m) && Canonical(m)
    ensures ProcessAttribs(m) == Ok(m)
    decreases m, 1
  {
    var valid := Desc(m.tag).value;
    SortAttribsKeeps(m.attrib, valid);
    ProcessAllIdempotent(m.children);
  }

  lemma {:induction false} ProcessAllIdempotent(cs: seq<Node>)
    requires forall i :: 0 <= i < |cs| ==> WellFormed(cs[i]) && Canonical(cs[i])
    ensures ProcessAll(cs) == Ok(cs)
    decreases cs, 0
  {
    if |cs| > 0 {
      ProcessAttribsIdempotent(cs[0]);
      forall i | 0 <= i < |cs[1..]| ensures WellFormed(cs[1..][i]) && Canonical(cs[1..][i]) {
        assert cs[1..][i] == cs[i + 1];
      }
      ProcessAllIdempotent(cs[1..]);
      assert [cs[0]] + cs[1..] == cs;
    }
  }

  /** Attributes already in descriptor order are left as they are. */
  lemma SortAttribsKeeps(attrib: seq<(string, string)>, valid: seq<string>)
    requires InDescOrder(attrib, valid)
    ensures SortAttribs(attrib, valid) == attrib
  {
    PrunedAll(attrib, valid);
    var ranked := Ranked(attrib, valid);
    assert Sorted(ranked) by {
      forall i, j | 0 <= i < j < |ranked| ensures !KeyLt(ranked[j].0, ranked[i].0) {
        assert IndexOf(valid, attrib[i].0) < IndexOf(valid, attrib[j].0);
      }
    }
    SortedStays(ranked);
    assert Items(ranked) == attrib;
  }

  lemma {:induction false} PrunedAll(attrib: seq<(string, string)>, valid: seq<string>)
    requires forall i :: 0 <= i < |attrib| ==> attrib[i].0 in valid
    ensures Pruned(attrib, valid) == attrib
  {
    if |attrib| > 0 {
      PrunedAll(attrib[1..], valid);
      assert [attrib[0]] + attrib[1..] == attrib;
    }
  }

  /** Sorting a sorted list changes nothing. */
  lemma {:induction false} SortedStays<T>(xs: seq<(Key, T)>)
    requires Sorted(xs)
    ensures SortByKey(xs) == xs
  {
    if |xs| > 0 {
      var init := xs[..|xs| - 1];
      assert Sorted(init) by {
        forall i, j | 0 <= i < j < |init| ensures !KeyLt(init[j].0, init[i].0) {
          assert init[i] == xs[i] && init[j] == xs[j];
        }
      }
      SortedStays(init);
      AppendLast(xs[|xs| - 1], init);
      assert init + [xs[|xs| - 1]] == xs;
    }
  }

  /** A key not below any other goes last. */
  lemma {:induction false} AppendLast<T>(x: (Key, T), ys: seq<(Key, T)>)
    requires forall i :: 0 <= i < |ys| ==> !KeyLt(x.0, ys[i].0)
    ensures Insert(x, ys) == ys + [x]
  {
    if |ys| > 0 {
      assert !KeyLt(x.0, ys[0].0);
      forall i | 0 <= i < |ys[1..]| ensures !KeyLt(x.0, ys[1..][i].0) {
        assert ys[1..][i] == ys[i + 1];
      }
      AppendLast(x, ys[1..]);
      assert [ys[0]] + (ys[1..] + [x]) == ys + [x];
    }
  }

  // -------------------------------------------------------------------
  // node_validator
  // -------------------------------------------------------------------

  /** `node_validator(was, now)`: the two trees have the same tags, texts,
      tails, attribute lists and shapes, and the attributes of `now` are
      all listed for its tags.  The checks run left to right and stop at
      the first one that fails; the descriptor lookup raises KeyError
      for a tag of `now` that has none. */
  function NodeValidator(was: Node, now: Node): Raises<bool>
    decreases now, 1
  {
    if !(was.tag == now.tag && was.text == now.text && was.tail == now.tail &&
         was.attrib == now.attrib && |was.children| == |now.children|)
    then Ok(false)
    else
      match Desc(now.tag)
      case None => Raise(KeyError(now.tag))
      case Some(valid) =>
        if !(forall k :: k in Keys(now.attrib) ==> k in valid) then Ok(false)
        else if Keys(now.attrib) != Keys(was.attrib) then Ok(false)
        else ValidateAll(was.children, now.children)
  }

  /** `all(node_validator(f, s) for f, s in zip(was, now))`: stops at the
      first pair that fails. */
  function ValidateAll(was: seq<Node>, now: seq<Node>): Raises<bool>
    decreases now, 0
  {
    if |was| == 0 || |now| == 0 then Ok(true)
    else
      match NodeValidator(was[0], now[0])
      case Raise(e) => Raise(e)
      case Ok(same) => if !same then Ok(false) else ValidateAll(was[1..], now[1..])
  }

  /** Every tag has a descriptor and lists every attribute key of its
      element. */
  predicate Described(n: Node) {
    Desc(n.tag).Some? && (forall k :: k in Keys(n.attrib) ==> k in Desc(n.tag).value) &&
    forall i :: 0 <= i < |n.children| ==> Described(n.children[i])
  }

  /** `node_validator` accepts exactly a pair of equal trees whose
      attributes are all listed for their tags. */
  lemma {:induction false} NodeValidatorMeaning(was: Node, now: Node)
    ensures NodeValidator(was, now) == Ok(true) <==> was == now && Described(now)
    decreases now, 1
  {
    if was.tag == now.tag && was.text == now.text && was.tail == now.tail &&
       was.attrib == now.attrib && |was.children| == |now.children| && Desc(now.tag).Some? &&
       forall k :: k in Keys(now.attrib) ==> k in Desc(now.tag).value {
      ValidateAllMeaning(was.children, now.children);
    }
  }

  lemma {:induction false} ValidateAllMeaning(was: seq<Node>, now: seq<Node>)
    requires |was| == |now|
    ensures ValidateAll(was, now) == Ok(true) <==>
      was == now && forall i :: 0 <= i < |now| ==> Described(now[i])
    decreases now, 0
  {
    if |now| > 0 {
      NodeValidatorMeaning(was[0], now[0]);
      ValidateAllMeaning(was[1..], now[1..]);
      if was == now {
        assert was[1..] == now[1..];
      }
      if was[0] == now[0] && was[1..] == now[1..] {
        assert was == [was[0]] + was[1..] && now == [now[0]] + now[1..];
      }
      if forall i :: 0 <= i < |now| ==> Described(now[i]) {
        forall i | 0 <= i < |now[1..]| ensures Described(now[1..][i]) {
          assert now[1..][i] == now[i + 1];
        }
      }
      if Described(now[0]) && forall i :: 0 <= i < |now[1..]| ==> Described(now[1..][i]) {
        forall i | 0 < i < |now| ensures Described(now[i]) {
          assert now[i] == now[1..][i - 1];
        }
      }
    }
  }

  /** `node_validator` raises only for a tag of `now` without a
      descriptor. */
  lemma {:induction false} NodeValidatorTotal(was: Node, now: Node)
    requires TagsDescribed(now)
    ensures NodeValidator(was, now).Ok?
    decreases now, 1
  {
    ValidateAllTotal(was.children, now.children);
  }

  lemma {:induction false} ValidateAllTotal(was: seq<Node>, now: seq<Node>)
    requires forall i :: 0 <= i < |now| ==> TagsDescribed(now[i])
    ensures ValidateAll(was, now).Ok?
    decreases now, 0
  {
    if |was| > 0 && |now| > 0 {
      NodeValidatorTotal(was[0], now[0]);
      forall i | 0 <= i < |now[1..]| ensures TagsDescribed(now[1..][i]) {
        assert now[1..][i] == now[i + 1];
      }
      ValidateAllTotal(was[1..], now[1..]);
    }
  }

  /** A canonical tree passes `node_validator` against itself. */
  lemma {:induction false} CanonicalValidates(m: Node)
    requires Canonical(m)
    ensures NodeValidator(m, m) == Ok(true)
  {
    CanonicalDescribed(m);
    NodeValidatorMeaning(m, m);
  }

  lemma {:induction false} CanonicalDescribed(m: Node)
    requires Canonical(m)
    ensures Described(m)
    decreases m
  {
    forall i | 0 <= i < |m.children| ensures Described(m.children[i]) {
      CanonicalDescribed(m.children[i]);
    }
    forall k | k in Keys(m.attrib) ensures k in Desc(m.tag).value {
      var i :| 0 <= i < |m.attrib| && Keys(m.attrib)[i] == k;
    }
  }
}
