/**
 Sorting and paging in `db/memory.py`: the chain of stable sorts that `find` runs from the
 last sort field to the first, under CouchDB's typed collation.
 */
module FindSort {
  import opened Strings

  /** A JSON value, or the absence of one. `text` of a container is what `str` makes of it. */
  datatype Value =
    | Missing
    | Null
    | Boolean(truth: bool)
    | Number(number: real)
    | Text(text: string)
    | Node(fields: map<string, Value>, text: string)
    | List(text: string)

  datatype Doc = Doc(id: string, body: Value)

  datatype Spec = Spec(path: seq<string>, descending: bool)

  /** `_dig`: follow a dotted path. */
  function Dig(node: Value, path: seq<string>): Value {
    if path == [] then node
    else if node.Node? && path[0] in node.fields then Dig(node.fields[path[0]], path[1..])
    else Missing
  }

  /** The first half of `_sort_key`. */
  function Rank(v: Value): nat {
    match v
    case Missing => 0
    case Null => 0
    case Boolean(_) => 1
    case Number(_) => 2
    case Text(_) => 3
    case Node(_, _) => 4
    case List(_) => 4
  }

  /** `_sort_key(a) < _sort_key(b)` */
  predicate Collates(a: Value, b: Value) {
    if Rank(a) != Rank(b) then Rank(a) < Rank(b)
    else
      match a
      case Missing => false
      case Null => false
      case Boolean(_) => !a.truth && b.truth
      case Number(_) => a.number < b.number
      case Text(_) => Less(a.text, b.text)
      case Node(_, _) => Less(a.text, b.text)
      case List(_) => Less(a.text, b.text)
  }

  /** Strictly first under one sort field; `reverse=True` flips the comparison and stays stable. */
  predicate First(spec: Spec, a: Doc, b: Doc) {
    var x, y := Dig(a.body, spec.path), Dig(b.body, spec.path);
    if spec.descending then Collates(y, x) else Collates(x, y)
  }

  /** Strictly first under several sort fields, the earlier fields weighing more. */
  predicate Before(specs: seq<Spec>, a: Doc, b: Doc) {
    specs != [] && (First(specs[0], a, b) || (!First(specs[0], b, a) && Before(specs[1..], a, b)))
  }

  function Insert(specs: seq<Spec>, doc: Doc, sorted: seq<Doc>): seq<Doc> {
    if sorted == [] then [doc]
    else if Before(specs, sorted[0], doc) then [sorted[0]] + Insert(specs, doc, sorted[1..])
    else [doc] + sorted
  }

  /** The stable sort: a document goes in front of all that are not strictly before it. */
  function Sorted(specs: seq<Spec>, docs: seq<Doc>): seq<Doc> {
    if docs == [] then [] else Insert(specs, docs[0], Sorted(specs, docs[1..]))
  }

  /** `for spec in reversed(sort): matched.sort(...)` */
  function Chain(specs: seq<Spec>, docs: seq<Doc>): seq<Doc> {
    if specs == [] then docs else Sorted([specs[0]], Chain(specs[1..], docs))
  }

  // -------------------------------------------------------------- a weak order

  lemma CollatesIsWeakOrder(a: Value, b: Value, c: Value)
    ensures !(Collates(a, b) && Collates(b, a))
    ensures Collates(a, b) && !Collates(c, b) ==> Collates(a, c)
  {
    if Rank(a) >= 3 && Rank(a) == Rank(b) {
      LessIsTotal(a.text, b.text);
      if Rank(c) == Rank(a) {
        LessIsTotal(b.text, c.text);
        if Less(a.text, b.text) && Less(b.text, c.text) {
          LessIsTransitive(a.text, b.text, c.text);
        }
      }
    }
  }

  lemma FirstIsWeakOrder(spec: Spec, a: Doc, b: Doc, c: Doc)
    ensures !(First(spec, a, b) && First(spec, b, a))
    ensures First(spec, a, b) && !First(spec, c, b) ==> First(spec, a, c)
    ensures First(spec, a, b) && !First(spec, a, c) ==> First(spec, c, b)
  {
    hide Collates, Dig;
    var x, y, z := Dig(a.body, spec.path), Dig(b.body, spec.path), Dig(c.body, spec.path);
    CollatesIsWeakOrder(x, y, z);
    CollatesIsWeakOrder(y, x, z);
    CollatesIsWeakOrder(x, z, y);
    CollatesIsWeakOrder(z, y, x);
    CollatesIsWeakOrder(y, z, x);
    CollatesIsWeakOrder(z, x, y);
  }

  lemma {:induction false} BeforeIsWeakOrder(specs: seq<Spec>, a: Doc, b: Doc, c: Doc)
    ensures !(Before(specs, a, b) && Before(specs, b, a))
    ensures Before(specs, a, b) && !Before(specs, c, b) ==> Before(specs, a, c)
    decreases |specs|
  {
    hide First;
    if specs != [] {
      FirstIsWeakOrder(specs[0], a, b, c);
      FirstIsWeakOrder(specs[0], b, a, c);
      FirstIsWeakOrder(specs[0], a, c, b);
      FirstIsWeakOrder(specs[0], c, b, a);
      FirstIsWeakOrder(specs[0], b, c, a);
      FirstIsWeakOrder(specs[0], c, a, b);
      BeforeIsWeakOrder(specs[1..], a, b, c);
    }
  }

  lemma BeforeOne(spec: Spec, a: Doc, b: Doc)
    ensures Before([spec], a, b) == First(spec, a, b)
  {
    assert [spec][1..] == [];
  }

  // -------------------------------------------------- the chain is one stable sort

  /** A document that nothing precedes on the later fields lands in the same place on the first field alone. */
  lemma {:induction false} FirstFieldDecides(specs: seq<Spec>, doc: Doc, docs: seq<Doc>)
    requires specs != [] && forall d | d in docs :: !Before(specs[1..], d, doc)
    ensures Insert([specs[0]], doc, docs) == Insert(specs, doc, docs)
    decreases |docs|
  {
    hide First;
    if docs != [] {
      BeforeOne(specs[0], docs[0], doc);
      assert docs[0] in docs;
      FirstFieldDecides(specs, doc, docs[1..]);
    }
  }

  /** If `y` is before `x` on the later fields, placing `x` and then `y` is placing `y` and then `x`. */
  lemma {:induction false} PlacingCommutes(specs: seq<Spec>, x: Doc, y: Doc, docs: seq<Doc>)
    requires specs != [] && Before(specs[1..], y, x)
    ensures Insert([specs[0]], y, Insert(specs, x, docs)) == Insert(specs, x, Insert([specs[0]], y, docs))
    decreases |docs|
  {
    var spec := specs[0];
    BeforeOne(spec, x, y);
    FirstIsWeakOrder(spec, x, y, y);
    BeforeIsWeakOrder(specs[1..], y, x, x);
    if docs == [] {
      PlacedInTwo(spec, x, y);
      PlacedInTwo2(specs, x, y);
    } else {
      var z := docs[0];
      BeforeOne(spec, z, y);
      FirstIsWeakOrder(spec, z, y, x);
      FirstIsWeakOrder(spec, x, z, y);
      FirstIsWeakOrder(spec, x, y, z);
      PlacingCommutes(specs, x, y, docs[1..]);
      PlacingStep(specs, x, y, z, docs[1..]);
    }
  }

  lemma PlacedInTwo(spec: Spec, x: Doc, y: Doc)
    ensures Insert([spec], y, [x]) == if First(spec, x, y) then [x, y] else [y, x]
  {
    BeforeOne(spec, x, y);
    assert [x][1..] == [];
  }

  lemma PlacedInTwo2(specs: seq<Spec>, x: Doc, y: Doc)
    ensures Insert(specs, x, [y]) == if Before(specs, y, x) then [y, x] else [x, y]
  {
    assert [y][1..] == [];
  }

  lemma PlacingStep(specs: seq<Spec>, x: Doc, y: Doc, z: Doc, rest: seq<Doc>)
    requires specs != [] && Before(specs[1..], y, x)
    requires First(specs[0], z, y) && !First(specs[0], x, y) ==> First(specs[0], z, x)
    requires First(specs[0], x, y) && !First(specs[0], z, y) ==> First(specs[0], x, z)
    requires !(First(specs[0], x, y) && First(specs[0], y, x))
    requires First(specs[0], z, x) ==> !First(specs[0], x, z)
    requires Insert([specs[0]], y, Insert(specs, x, rest)) == Insert(specs, x, Insert([specs[0]], y, rest))
    ensures Insert([specs[0]], y, Insert(specs, x, [z] + rest)) == Insert(specs, x, Insert([specs[0]], y, [z] + rest))
  {
    hide First;
    var spec := specs[0];
    BeforeOne(spec, x, y);
    BeforeOne(spec, z, y);
    PlaceFront([spec], y, z, rest);
    PlaceFront(specs, x, z, rest);
    PlaceFront([spec], y, x, [z] + rest);
    PlaceFront([spec], y, z, Insert(specs, x, rest));
    PlaceFront(specs, x, y, [z] + rest);
    PlaceFront(specs, x, z, Insert([spec], y, rest));
  }

  lemma PlaceFront(specs: seq<Spec>, doc: Doc, head: Doc, rest: seq<Doc>)
    ensures Insert(specs, doc, [head] + rest) ==
            if Before(specs, head, doc) then [head] + Insert(specs, doc, rest) else [doc] + ([head] + rest)
  {
    assert ([head] + rest)[1..] == rest;
  }

  /** Nothing in a sorted list is before its head. */
  predicate Ordered(specs: seq<Spec>, docs: seq<Doc>) {
    forall i, j :: 0 <= i < j < |docs| ==> !Before(specs, docs[j], docs[i])
  }

  lemma {:induction false} InsertKeepsOrder(specs: seq<Spec>, doc: Doc, docs: seq<Doc>)
    requires Ordered(specs, docs)
    ensures Ordered(specs, Insert(specs, doc, docs))
    ensures multiset(Insert(specs, doc, docs)) == multiset(docs) + multiset{doc}
    decreases |docs|
  {
    hide Before;
    if docs != [] {
      assert docs == [docs[0]] + docs[1..];
      BeforeIsWeakOrder(specs, docs[0], doc, doc);
      if Before(specs, docs[0], doc) {
        InsertKeepsOrder(specs, doc, docs[1..]);
        var tail := Insert(specs, doc, docs[1..]);
        forall j | 0 <= j < |tail| ensures !Before(specs, tail[j], docs[0]) {
          assert tail[j] in multiset(tail);
          if tail[j] != doc {
            assert tail[j] in multiset(docs[1..]);
            var k :| 0 <= k < |docs[1..]| && docs[1..][k] == tail[j];
          }
        }
        HeadedStaysOrdered(specs, docs[0], tail);
      } else {
        forall j | 0 <= j < |docs| ensures !Before(specs, docs[j], doc) {
          if j > 0 { BeforeIsWeakOrder(specs, docs[j], doc, docs[0]); }
        }
        HeadedStaysOrdered(specs, doc, docs);
      }
    }
  }

  lemma HeadedStaysOrdered(specs: seq<Spec>, head: Doc, tail: seq<Doc>)
    requires Ordered(specs, tail) && forall j | 0 <= j < |tail| :: !Before(specs, tail[j], head)
    ensures Ordered(specs, [head] + tail)
  {
    hide Before;
  }

  lemma {:induction false} SortedIsOrdered(specs: seq<Spec>, docs: seq<Doc>)
    ensures Ordered(specs, Sorted(specs, docs)) && multiset(Sorted(specs, docs)) == multiset(docs)
    decreases |docs|
  {
    hide Before, Insert, Ordered;
    if docs != [] {
      SortedIsOrdered(specs, docs[1..]);
      InsertKeepsOrder(specs, docs[0], Sorted(specs, docs[1..]));
      assert docs == [docs[0]] + docs[1..];
    } else {
      NothingIsOrdered(specs);
    }
  }

  lemma NothingIsOrdered(specs: seq<Spec>)
    ensures Ordered(specs, [])
  {
  }

  lemma {:induction false} SortAfterInsert(specs: seq<Spec>, x: Doc, docs: seq<Doc>)
    requires specs != [] && Ordered(specs[1..], docs)
    ensures Sorted([specs[0]], Insert(specs[1..], x, docs)) == Insert(specs, x, Sorted([specs[0]], docs))
    decreases |docs|
  {
    var later, spec := specs[1..], specs[0];
    hide Before;
    if docs == [] {
      assert [x][1..] == [];
    } else if Before(later, docs[0], x) {
      var y, rest := docs[0], docs[1..];
      SortAfterInsert(specs, x, rest);
      PlacingCommutes(specs, x, y, Sorted([spec], rest));
      SortedHead(spec, y, Insert(later, x, rest));
    } else {
      forall d | d in Sorted([spec], docs) ensures !Before(later, d, x) {
        SortedIsOrdered([spec], docs);
        assert d in multiset(docs);
        var k :| 0 <= k < |docs| && docs[k] == d;
        if k > 0 { BeforeIsWeakOrder(later, d, x, docs[0]); }
      }
      FirstFieldDecides(specs, x, Sorted([spec], docs));
      SortedHead(spec, x, docs);
    }
  }

  lemma SortedHead(spec: Spec, head: Doc, rest: seq<Doc>)
    ensures Sorted([spec], [head] + rest) == Insert([spec], head, Sorted([spec], rest))
  {
    assert ([head] + rest)[1..] == rest;
  }

  lemma {:induction false} OneFieldMore(specs: seq<Spec>, docs: seq<Doc>)
    requires specs != []
    ensures Sorted([specs[0]], Sorted(specs[1..], docs)) == Sorted(specs, docs)
    decreases |docs|
  {
    hide Before, Insert, Ordered;
    if docs != [] {
      OneFieldMore(specs, docs[1..]);
      SortedIsOrdered(specs[1..], docs[1..]);
      SortAfterInsert(specs, docs[0], Sorted(specs[1..], docs[1..]));
    }
  }

  lemma {:induction false} UnsortedStays(docs: seq<Doc>)
    ensures Sorted([], docs) == docs
  {
    if docs != [] { UnsortedStays(docs[1..]); }
  }

  /** Sorting by the last field, then stably by the one before it, and so on, is one stable lexicographic sort. */
  lemma {:induction false} ChainIsOneSort(specs: seq<Spec>, docs: seq<Doc>)
    ensures Chain(specs, docs) == Sorted(specs, docs)
    decreases |specs|
  {
    hide Before, Insert;
    if specs == [] {
      UnsortedStays(docs);
    } else {
      ChainIsOneSort(specs[1..], docs);
      OneFieldMore(specs, docs);
    }
  }

  // ------------------------------------------------- any stable sort gives the same

  predicate Unrepeated(docs: seq<Doc>) {
    forall i, j :: 0 <= i < j < |docs| ==> docs[i] != docs[j]
  }

  predicate Earlier(docs: seq<Doc>, a: Doc, b: Doc) {
    exists i, j :: 0 <= i < j < |docs| && docs[i] == a && docs[j] == b
  }

  /** Strictly before, or level and already ahead. */
  predicate Ahead(specs: seq<Spec>, docs: seq<Doc>, a: Doc, b: Doc) {
    Before(specs, a, b) || (!Before(specs, b, a) && Earlier(docs, a, b))
  }

  predicate AllAhead(specs: seq<Spec>, docs: seq<Doc>, result: seq<Doc>) {
    forall i, j :: 0 <= i < j < |result| ==> Ahead(specs, docs, result[i], result[j])
  }

  /** What a stable sort promises: the same documents, each ahead of all that follow it. */
  predicate IsStableSort(specs: seq<Spec>, docs: seq<Doc>, result: seq<Doc>) {
    multiset(result) == multiset(docs) && AllAhead(specs, docs, result)
  }

  lemma {:induction false} InsertKeepsAhead(specs: seq<Spec>, docs: seq<Doc>, sorted: seq<Doc>)
    requires docs != [] && Ordered(specs, sorted) && AllAhead(specs, docs, sorted)
    requires forall d | d in sorted :: d in docs[1..]
    ensures AllAhead(specs, docs, Insert(specs, docs[0], sorted))
    decreases |sorted|
  {
    hide Before, Earlier;
    var x := docs[0];
    var result := Insert(specs, x, sorted);
    if sorted != [] {
      if Before(specs, sorted[0], x) {
        InsertKeepsAhead(specs, docs, sorted[1..]);
        InsertKeepsOrder(specs, x, sorted[1..]);
        forall j | 0 < j < |result| ensures Ahead(specs, docs, result[0], result[j]) {
          assert result[j] in multiset(result[1..]);
          if result[j] != x {
            assert result[j] in multiset(sorted[1..]);
            var k :| 0 <= k < |sorted[1..]| && sorted[1..][k] == result[j];
            assert sorted[k + 1] == result[j];
          }
        }
        HeadedStaysAhead(specs, docs, result[0], result[1..]);
        assert result == [result[0]] + result[1..];
      } else {
        forall d | d in sorted ensures Ahead(specs, docs, x, d) {
          var j :| 0 <= j < |sorted| && sorted[j] == d;
          if j > 0 { BeforeIsWeakOrder(specs, d, x, sorted[0]); }
          HeadIsEarlier(docs, d);
        }
        HeadedStaysAhead(specs, docs, x, sorted);
      }
    }
  }

  lemma HeadedStaysAhead(specs: seq<Spec>, docs: seq<Doc>, head: Doc, tail: seq<Doc>)
    requires AllAhead(specs, docs, tail) && forall d | d in tail :: Ahead(specs, docs, head, d)
    ensures AllAhead(specs, docs, [head] + tail)
  {
    hide Ahead;
  }

  lemma HeadIsEarlier(docs: seq<Doc>, d: Doc)
    requires docs != [] && d in docs[1..]
    ensures Earlier(docs, docs[0], d)
  {
    var k :| 0 <= k < |docs[1..]| && docs[1..][k] == d;
    assert docs[k + 1] == d;
  }

  lemma {:induction false} SortedIsStable(specs: seq<Spec>, docs: seq<Doc>)
    ensures IsStableSort(specs, docs, Sorted(specs, docs))
    decreases |docs|
  {
    hide Before, Insert, Earlier;
    SortedIsOrdered(specs, docs);
    if docs != [] {
      var rest := docs[1..];
      var tail := Sorted(specs, rest);
      SortedIsStable(specs, rest);
      SortedIsOrdered(specs, rest);
      forall i, j | 0 <= i < j < |tail| ensures Ahead(specs, docs, tail[i], tail[j]) {
        assert Ahead(specs, rest, tail[i], tail[j]);
        EarlierInWhole(docs, tail[i], tail[j]);
      }
      forall d | d in tail ensures d in rest {
        assert d in multiset(tail);
      }
      InsertKeepsAhead(specs, docs, tail);
    }
  }

  lemma EarlierInWhole(docs: seq<Doc>, a: Doc, b: Doc)
    requires docs != []
    ensures Earlier(docs[1..], a, b) ==> Earlier(docs, a, b)
  {
    if Earlier(docs[1..], a, b) {
      var i, j :| 0 <= i < j < |docs[1..]| && docs[1..][i] == a && docs[1..][j] == b;
      assert docs[i + 1] == a && docs[j + 1] == b;
    }
  }

  lemma {:induction false} InsertLands(specs: seq<Spec>, doc: Doc, front: seq<Doc>, back: seq<Doc>)
    requires forall d | d in front :: Before(specs, d, doc)
    requires back != [] ==> !Before(specs, back[0], doc)
    ensures Insert(specs, doc, front + back) == front + [doc] + back
    decreases |front|
  {
    hide Before;
    if front == [] {
      assert front + back == back && [] + [doc] == [doc];
      if back == [] { assert [doc] + back == [doc]; }
    } else {
      assert front[0] in front && (front + back)[0] == front[0] && (front + back)[1..] == front[1..] + back;
      InsertLands(specs, doc, front[1..], back);
      assert [front[0]] + (front[1..] + [doc] + back) == front + [doc] + back;
    }
  }

  /** On documents without repeats there is exactly one stable sort, whatever the algorithm. */
  lemma StableSortIsSorted(specs: seq<Spec>, docs: seq<Doc>, result: seq<Doc>)
    requires Unrepeated(docs)
    ensures IsStableSort(specs, docs, result) <==> result == Sorted(specs, docs)
  {
    SortedIsStable(specs, docs);
    if IsStableSort(specs, docs, result) {
      StableSortIsUnique(specs, docs, result);
    }
  }

  lemma {:induction false} StableSortIsUnique(specs: seq<Spec>, docs: seq<Doc>, result: seq<Doc>)
    requires Unrepeated(docs) && IsStableSort(specs, docs, result)
    ensures result == Sorted(specs, docs)
    decreases |docs|
  {
    if docs == [] {
      assert |multiset(result)| == 0;
    } else {
      hide Before, Insert, Earlier, Ahead, AllAhead, Unrepeated;
      var x, rest := docs[0], docs[1..];
      assert docs == [x] + rest;
      assert x in multiset(result);
      var k :| 0 <= k < |result| && result[k] == x;
      var front, back := result[..k], result[k + 1..];
      assert result == front + [x] + back;
      RemovingKeepsStable(specs, docs, front, back);
      StableSortIsUnique(specs, rest, front + back);
      HeadStands(specs, docs, front, back);
      InsertLands(specs, x, front, back);
    }
  }

  lemma HeadStands(specs: seq<Spec>, docs: seq<Doc>, front: seq<Doc>, back: seq<Doc>)
    requires docs != [] && Unrepeated(docs) && AllAhead(specs, docs, front + [docs[0]] + back)
    ensures forall d | d in front :: Before(specs, d, docs[0])
    ensures back != [] ==> !Before(specs, back[0], docs[0])
  {
    hide Before, Earlier, Unrepeated;
    var x, result := docs[0], front + [docs[0]] + back;
    forall d | d in front ensures Before(specs, d, x) {
      var i :| 0 <= i < |front| && front[i] == d;
      assert result[i] == d && result[|front|] == x;
      assert Ahead(specs, docs, result[i], result[|front|]);
      HeadIsEarliest(docs, d);
    }
    if back != [] {
      assert result[|front|] == x && result[|front| + 1] == back[0];
      assert Ahead(specs, docs, result[|front|], result[|front| + 1]);
      BeforeIsWeakOrder(specs, x, back[0], back[0]);
    }
  }

  lemma HeadIsEarliest(docs: seq<Doc>, d: Doc)
    requires docs != [] && Unrepeated(docs)
    ensures !Earlier(docs, d, docs[0])
  {
  }

  lemma RemovingKeepsStable(specs: seq<Spec>, docs: seq<Doc>, front: seq<Doc>, back: seq<Doc>)
    requires docs != [] && Unrepeated(docs) && IsStableSort(specs, docs, front + [docs[0]] + back)
    ensures Unrepeated(docs[1..]) && IsStableSort(specs, docs[1..], front + back)
  {
    hide Before, Earlier;
    SameRest(docs, front, back);
    var rest, less := docs[1..], front + back;
    forall i, j | 0 <= i < j < |less| ensures Ahead(specs, rest, less[i], less[j]) {
      assert less[i] in multiset(less) && less[j] in multiset(less);
      AheadInWhole(specs, docs, front, back, i, j);
      EarlierInRest(docs, less[i], less[j]);
    }
  }

  lemma SameRest(docs: seq<Doc>, front: seq<Doc>, back: seq<Doc>)
    requires docs != [] && multiset(front + [docs[0]] + back) == multiset(docs)
    ensures multiset(front + back) == multiset(docs[1..])
  {
    var x, rest, result := docs[0], docs[1..], front + [docs[0]] + back;
    assert docs == [x] + rest;
    assert multiset(result) == multiset(front) + multiset{x} + multiset(back);
    assert multiset(docs) == multiset{x} + multiset(rest);
    assert multiset(front + back) == multiset(front) + multiset(back);
    assert multiset(front + back) == multiset(result) - multiset{x};
    assert multiset(rest) == multiset(docs) - multiset{x};
  }

  lemma AheadInWhole(specs: seq<Spec>, docs: seq<Doc>, front: seq<Doc>, back: seq<Doc>, i: nat, j: nat)
    requires docs != [] && AllAhead(specs, docs, front + [docs[0]] + back)
    requires i < j < |front + back|
    ensures Ahead(specs, docs, (front + back)[i], (front + back)[j])
  {
    hide Ahead;
    var result, less := front + [docs[0]] + back, front + back;
    var i', j' := if i < |front| then i else i + 1, if j < |front| then j else j + 1;
    assert result[i'] == less[i] && result[j'] == less[j];
  }

  lemma EarlierInRest(docs: seq<Doc>, a: Doc, b: Doc)
    requires docs != [] && Unrepeated(docs) && a in multiset(docs[1..])
    ensures Earlier(docs, a, b) ==> Earlier(docs[1..], a, b)
  {
    if Earlier(docs, a, b) {
      var i, j :| 0 <= i < j < |docs| && docs[i] == a && docs[j] == b;
      var k :| 0 <= k < |docs[1..]| && docs[1..][k] == a;
      assert docs[k + 1] == a;
      assert i == k + 1;
      assert docs[1..][i - 1] == a && docs[1..][j - 1] == b;
    }
  }

  // ---------------------------------------------------- what the order says of values

  /** A dotted path is followed part by part; a field that is not there, or not in a node, is missing. */
  lemma {:induction false} DigFollows(node: Value, field: string, rest: seq<string>)
    ensures Dig(node, []) == node
    ensures node.Node? && field in node.fields ==> Dig(node, [field] + rest) == Dig(node.fields[field], rest)
    ensures !node.Node? || field !in node.fields ==> Dig(node, [field] + rest) == Missing
  {
    assert ([field] + rest)[0] == field && ([field] + rest)[1..] == rest;
  }

  /** Neither sorts before the other. */
  predicate Level(x: Value, y: Value) {
    || ((x.Missing? || x.Null?) && (y.Missing? || y.Null?))
    || (x.Boolean? && x == y)
    || (x.Number? && x == y)
    || (x.Text? && x == y)
    || ((x.Node? || x.List?) && (y.Node? || y.List?) && x.text == y.text)
  }

  /** Missing and null, then false, then true, then numbers upwards, then strings, then containers by their text. */
  predicate Ascends(x: Value, y: Value) {
    match y
    case Missing => x.Missing? || x.Null?
    case Null => x.Missing? || x.Null?
    case Boolean(truth) => x.Missing? || x.Null? || (x.Boolean? && (x.truth ==> truth))
    case Number(number) => x.Missing? || x.Null? || x.Boolean? || (x.Number? && x.number <= number)
    case Text(text) => !x.Node? && !x.List? && (x.Text? ==> !Less(text, x.text))
    case _ => x.Node? || x.List? ==> !Less(y.text, x.text)
  }

  lemma FirstMeans(spec: Spec, a: Doc, b: Doc)
    ensures var x, y := Dig(a.body, spec.path), Dig(b.body, spec.path);
      && (!First(spec, b, a) <==> if spec.descending then Ascends(y, x) else Ascends(x, y))
      && (!First(spec, a, b) && !First(spec, b, a) <==> Level(x, y))
  {
    hide Dig;
    var x, y := Dig(a.body, spec.path), Dig(b.body, spec.path);
    if (x.Text? && y.Text?) || ((x.Node? || x.List?) && (y.Node? || y.List?)) {
      LessIsTotal(x.text, y.text);
    }
  }

  lemma {:induction false} BeforeMeans(specs: seq<Spec>, a: Doc, b: Doc, k: nat)
    requires k < |specs| && !Before(specs, b, a)
    requires forall f | 0 <= f < k :: Level(Dig(a.body, specs[f].path), Dig(b.body, specs[f].path))
    ensures var x, y := Dig(a.body, specs[k].path), Dig(b.body, specs[k].path);
      if specs[k].descending then Ascends(y, x) else Ascends(x, y)
    decreases k
  {
    hide First, Dig, Level, Ascends;
    FirstMeans(specs[0], a, b);
    if k > 0 {
      assert Level(Dig(a.body, specs[0].path), Dig(b.body, specs[0].path));
      forall f | 0 <= f < k - 1 ensures Level(Dig(a.body, specs[1..][f].path), Dig(b.body, specs[1..][f].path)) {
        assert specs[1..][f] == specs[f + 1];
      }
      BeforeMeans(specs[1..], a, b, k - 1);
    }
  }

  lemma {:induction false} LevelIsNotBefore(specs: seq<Spec>, a: Doc, b: Doc)
    requires forall f | 0 <= f < |specs| :: Level(Dig(a.body, specs[f].path), Dig(b.body, specs[f].path))
    ensures !Before(specs, a, b) && !Before(specs, b, a)
    decreases |specs|
  {
    hide First, Dig, Level;
    if specs != [] {
      FirstMeans(specs[0], a, b);
      assert Level(Dig(a.body, specs[0].path), Dig(b.body, specs[0].path));
      forall f | 0 <= f < |specs| - 1 ensures Level(Dig(a.body, specs[1..][f].path), Dig(b.body, specs[1..][f].path)) {
        assert specs[1..][f] == specs[f + 1];
      }
      LevelIsNotBefore(specs[1..], a, b);
    }
  }

  /**
   Of two documents in the result, on the first fields where they are level the next field
   ascends from the earlier to the later, or descends if so asked; and documents level on
   every field stand as they stood.
   */
  lemma ResultAscends(specs: seq<Spec>, docs: seq<Doc>, i: nat, j: nat, k: nat)
    requires i < j < |Sorted(specs, docs)| && k <= |specs|
    requires var a, b := Sorted(specs, docs)[i], Sorted(specs, docs)[j];
      forall f | 0 <= f < k :: Level(Dig(a.body, specs[f].path), Dig(b.body, specs[f].path))
    ensures var a, b := Sorted(specs, docs)[i], Sorted(specs, docs)[j];
      if k == |specs| then exists p, q :: 0 <= p < q < |docs| && docs[p] == a && docs[q] == b
      else
        var x, y := Dig(a.body, specs[k].path), Dig(b.body, specs[k].path);
        if specs[k].descending then Ascends(y, x) else Ascends(x, y)
  {
    hide Sorted, Before, Dig, Level, Ascends;
    var a, b := Sorted(specs, docs)[i], Sorted(specs, docs)[j];
    SortedIsStable(specs, docs);
    SortedIsOrdered(specs, docs);
    assert Ahead(specs, docs, a, b);
    if k == |specs| {
      LevelIsNotBefore(specs, a, b);
    } else {
      BeforeMeans(specs, a, b, k);
    }
  }

  // ------------------------------------------------------------------ typed_sort

  function TypedSort(field: string, descending: bool): seq<Spec> {
    [Spec(["type"], descending), Spec([field], descending)]
  }

  lemma {:induction false} SameOrderSameSort(specs: seq<Spec>, others: seq<Spec>, docs: seq<Doc>)
    requires forall a, b | a in docs && b in docs :: Before(specs, a, b) == Before(others, a, b)
    ensures Sorted(specs, docs) == Sorted(others, docs)
    decreases |docs|
  {
    hide Before, Insert;
    if docs != [] {
      SameOrderSameSort(specs, others, docs[1..]);
      SortedIsOrdered(specs, docs[1..]);
      var tail := Sorted(specs, docs[1..]);
      forall d | d in tail ensures Before(specs, d, docs[0]) == Before(others, d, docs[0]) {
        assert d in multiset(docs[1..]);
      }
      SamePlace(specs, others, docs[0], tail);
    }
  }

  lemma {:induction false} SamePlace(specs: seq<Spec>, others: seq<Spec>, doc: Doc, docs: seq<Doc>)
    requires forall d | d in docs :: Before(specs, d, doc) == Before(others, d, doc)
    ensures Insert(specs, doc, docs) == Insert(others, doc, docs)
    decreases |docs|
  {
    hide Before;
    if docs != [] {
      assert docs[0] in docs;
      SamePlace(specs, others, doc, docs[1..]);
    }
  }

  /** Leading with `type` changes nothing when the selector pins it. */
  lemma TypedSortIsFieldSort(field: string, descending: bool, docs: seq<Doc>, kind: Value)
    requires forall d | d in docs :: Dig(d.body, ["type"]) == kind
    ensures Chain(TypedSort(field, descending), docs) == Sorted([Spec([field], descending)], docs)
  {
    var specs := TypedSort(field, descending);
    ChainIsOneSort(specs, docs);
    assert specs[1..] == [Spec([field], descending)];
    hide Dig, Sorted, Chain;
    forall a, b | a in docs && b in docs ensures Before(specs, a, b) == Before(specs[1..], a, b) {
      CollatesIsWeakOrder(kind, kind, kind);
      assert !First(specs[0], a, b) && !First(specs[0], b, a);
    }
    SameOrderSameSort(specs, specs[1..], docs);
  }

  // --------------------------------------------------------------------- find

  /** `find` on the documents that match: sort, then the window. */
  function Find(matched: seq<Doc>, sort: seq<Spec>, limit: nat, skip: nat): seq<Doc> {
    var all := Sorted(sort, matched);
    if skip >= |all| then [] else if skip + limit < |all| then all[skip..skip + limit] else all[skip..]
  }

  /** The window is the stretch of the sorted documents from `skip` on, as long as asked for or as there is. */
  lemma FindIsWindow(matched: seq<Doc>, sort: seq<Spec>, limit: nat, skip: nat)
    ensures var found, all := Find(matched, sort, limit, skip), Sorted(sort, matched);
      && |found| == (if skip >= |matched| then 0 else if |matched| - skip < limit then |matched| - skip else limit)
      && |all| == |matched| && forall i | 0 <= i < |found| :: found[i] == all[skip + i]
  {
    SortedIsOrdered(sort, matched);
    assert |multiset(Sorted(sort, matched))| == |multiset(matched)|;
  }

  method SortChain(matched: seq<Doc>, sort: seq<Spec>) returns (docs: seq<Doc>)
    ensures docs == Sorted(sort, matched)
  {
    docs := matched;
    var i := |sort|;
    while i > 0
      invariant 0 <= i <= |sort|
      invariant docs == Chain(sort[i..], matched)
    {
      hide Sorted;
      i := i - 1;
      assert sort[i..][0] == sort[i] && sort[i..][1..] == sort[i + 1..];
      docs := Sorted([sort[i]], docs);
    }
    assert sort[0..] == sort;
    ChainIsOneSort(sort, matched);
  }

  /** The paging loop every caller of `find` writes. */
  method FindAll(matched: seq<Doc>, sort: seq<Spec>, page: nat) returns (docs: seq<Doc>)
    requires page > 0
    ensures docs == Sorted(sort, matched)
    ensures multiset(docs) == multiset(matched)
  {
    SortedIsOrdered(sort, matched);
    hide Sorted, Ordered;
    ghost var all := Sorted(sort, matched);
    docs := [];
    var skip := 0;
    while true
      invariant skip <= |all| && docs == all[..skip]
      decreases |all| - skip
    {
      var window := Find(matched, sort, page, skip);
      if window == [] {
        break;
      }
      assert all[..skip] + window == all[..skip + |window|];
      docs := docs + window;
      skip := skip + |window|;
      if |window| < page {
        break;
      }
    }
    assert all[..|all|] == all;
  }

  /** `count` in `db/couch.py`, which moves on by the page size and not by what it received. */
  method Count(matched: seq<Doc>, page: nat) returns (total: nat)
    requires page > 0
    ensures total == |matched|
  {
    SortedIsOrdered([], matched);
    assert |multiset(Sorted([], matched))| == |matched|;
    hide Sorted, Ordered;
    total := 0;
    var skip := 0;
    while true
      invariant total == skip <= |matched| == |Sorted([], matched)|
      decreases |matched| - skip
    {
      var docs := Find(matched, [], page, skip);
      total := total + |docs|;
      if |docs| < page {
        return;
      }
      skip := skip + page;
    }
  }
}
