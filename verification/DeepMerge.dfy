/** `settings_store.py`: laying console overrides over the configuration file. */
module DeepMerge {
  import opened Wrappers

  /** A configuration value. Lists and scalars are alike here: neither is merged into. */
  datatype Json = Leaf(text: string) | Node(fields: Fields)

  type Fields = map<string, Json>

  /** The node whose children replace instead of merging. */
  const REPLACE_CHILDREN_OF := ["llm", "tiers"]

  predicate Mergeable(base: Fields, overlay: Fields, path: seq<string>, key: string)
    requires key in overlay
  {
    overlay[key].Node? && key in base && base[key].Node? && path != REPLACE_CHILDREN_OF
  }

  function Merge(base: Fields, overlay: Fields, path: seq<string>): Fields
    decreases Node(overlay)
  {
    map key | key in base.Keys + overlay.Keys ::
      if key !in overlay then base[key]
      else if Mergeable(base, overlay, path, key) then Node(Merge(base[key].fields, overlay[key].fields, path + [key]))
      else overlay[key]
  }

  /** The value a path of keys leads to. */
  function At(fields: Fields, path: seq<string>): Option<Json>
    requires path != []
    decreases |path|
  {
    if path[0] !in fields then None
    else if |path| == 1 then Some(fields[path[0]])
    else if fields[path[0]].Node? then At(fields[path[0]].fields, path[1..])
    else None
  }

  lemma EmptyOverlayIsIdentity(base: Fields, path: seq<string>)
    ensures Merge(base, map[], path) == base
  {
  }

  lemma {:induction false} MergeTwice(base: Fields, overlay: Fields, path: seq<string>)
    ensures Merge(Merge(base, overlay, path), overlay, path) == Merge(base, overlay, path)
    decreases Node(overlay)
  {
    var once := Merge(base, overlay, path);
    forall key | key in overlay && Mergeable(base, overlay, path, key)
      ensures Merge(once[key].fields, overlay[key].fields, path + [key]) == once[key].fields
    {
      MergeTwice(base[key].fields, overlay[key].fields, path + [key]);
    }
    var twice := Merge(once, overlay, path);
    assert twice.Keys == once.Keys;
    forall key | key in once ensures twice[key] == once[key] {
      if key in overlay && !Mergeable(base, overlay, path, key) && Mergeable(once, overlay, path, key) {
        SameTwice(overlay[key].fields, path + [key]);
      }
    }
  }

  /** A tree laid over itself. */
  lemma {:induction false} SameTwice(fields: Fields, path: seq<string>)
    ensures Merge(fields, fields, path) == fields
    decreases Node(fields)
  {
    forall key | key in fields && fields[key].Node?
      ensures Merge(fields[key].fields, fields[key].fields, path + [key]) == fields[key].fields
    {
      SameTwice(fields[key].fields, path + [key]);
    }
  }

  // ------------------------------------------------------------------ path by path

  predicate IsNode(v: Option<Json>) {
    v.Some? && v.value.Node?
  }

  /** Both sides have a node at every step of `q`, and none of its keys is one that replaces. */
  predicate MergesTo(base: Fields, overlay: Fields, path: seq<string>, q: seq<string>) {
    forall k :: 0 <= k < |q| ==> JoinsAfter(base, overlay, path, q, k)
  }

  predicate JoinsAfter(base: Fields, overlay: Fields, path: seq<string>, q: seq<string>, k: nat)
    requires k < |q|
  {
    Joins(base, overlay, path, q[..k + 1])
  }

  /** One step: both have a node at `q`, and the node above merges its children. */
  predicate Joins(base: Fields, overlay: Fields, path: seq<string>, q: seq<string>)
    requires q != []
  {
    path + q[..|q| - 1] != REPLACE_CHILDREN_OF && IsNode(At(base, q)) && IsNode(At(overlay, q))
  }

  /** The overlay stops short of `q` at a merged node. */
  ghost predicate Untouched(base: Fields, overlay: Fields, path: seq<string>, q: seq<string>) {
    exists k :: 0 <= k < |q| && StopsAt(base, overlay, path, q, k)
  }

  predicate StopsAt(base: Fields, overlay: Fields, path: seq<string>, q: seq<string>, k: nat)
    requires k < |q|
  {
    MergesTo(base, overlay, path, q[..k]) && At(overlay, q[..k + 1]) == None
  }

  lemma JoinsBelow(base: Fields, overlay: Fields, path: seq<string>, q: seq<string>)
    requires |q| > 1 && q[0] in overlay && Mergeable(base, overlay, path, q[0])
    ensures Joins(base, overlay, path, q) <==> Joins(base[q[0]].fields, overlay[q[0]].fields, path + [q[0]], q[1..])
  {
    assert path + q[..|q| - 1] == path + [q[0]] + q[1..][..|q| - 2];
  }

  lemma MergesBelow(base: Fields, overlay: Fields, path: seq<string>, q: seq<string>)
    requires q != [] && q[0] in overlay && Mergeable(base, overlay, path, q[0])
    ensures MergesTo(base, overlay, path, q) <==> MergesTo(base[q[0]].fields, overlay[q[0]].fields, path + [q[0]], q[1..])
  {
    hide Joins;
    var rest, b, o, p := q[1..], base[q[0]].fields, overlay[q[0]].fields, path + [q[0]];
    FirstJoins(base, overlay, path, q[..1]);
    assert JoinsAfter(base, overlay, path, q, 0);
    forall k | 0 <= k < |rest|
      ensures JoinsAfter(b, o, p, rest, k) <==> JoinsAfter(base, overlay, path, q, k + 1)
    {
      assert q[..k + 2][1..] == rest[..k + 1];
      JoinsBelow(base, overlay, path, q[..k + 2]);
    }
    if MergesTo(b, o, p, rest) {
      forall k | 1 <= k < |q| ensures JoinsAfter(base, overlay, path, q, k) {
        assert JoinsAfter(b, o, p, rest, k - 1);
      }
    }
  }

  lemma FirstJoins(base: Fields, overlay: Fields, path: seq<string>, q: seq<string>)
    requires |q| == 1 && q[0] in overlay
    ensures Joins(base, overlay, path, q) <==> Mergeable(base, overlay, path, q[0])
  {
    assert path + q[..0] == path;
  }

  lemma UntouchedBelow(base: Fields, overlay: Fields, path: seq<string>, q: seq<string>)
    requires |q| > 1 && q[0] in overlay && Mergeable(base, overlay, path, q[0])
    ensures Untouched(base, overlay, path, q) <==> Untouched(base[q[0]].fields, overlay[q[0]].fields, path + [q[0]], q[1..])
  {
    hide MergesTo;
    var rest, b, o, p := q[1..], base[q[0]].fields, overlay[q[0]].fields, path + [q[0]];
    forall k | 1 <= k < |q| ensures StopsAt(base, overlay, path, q, k) <==> StopsAt(b, o, p, rest, k - 1) {
      assert q[..k][1..] == rest[..k - 1] && q[..k + 1][1..] == rest[..k];
      MergesBelow(base, overlay, path, q[..k]);
    }
    assert !StopsAt(base, overlay, path, q, 0);
    if k :| 0 <= k < |rest| && StopsAt(b, o, p, rest, k) {
      assert StopsAt(base, overlay, path, q, k + 1);
    }
  }

  lemma StopsAtOnce(base: Fields, overlay: Fields, path: seq<string>, q: seq<string>)
    requires q != [] && q[0] !in overlay
    ensures Untouched(base, overlay, path, q)
  {
    assert StopsAt(base, overlay, path, q, 0);
  }

  lemma ReplacedAtOnce(base: Fields, overlay: Fields, path: seq<string>, q: seq<string>)
    requires q != [] && q[0] in overlay && !Mergeable(base, overlay, path, q[0])
    ensures !Untouched(base, overlay, path, q) && !MergesTo(base, overlay, path, q)
  {
    FirstJoins(base, overlay, path, q[..1]);
    assert !JoinsAfter(base, overlay, path, q, 0);
    forall k | 0 <= k < |q| ensures !StopsAt(base, overlay, path, q, k) {
      if k > 0 {
        assert q[..k][..1] == q[..1];
        assert !JoinsAfter(base, overlay, path, q[..k], 0);
      }
    }
  }

  /**
   Every path of the result: the base's value where the overlay does not reach, the merge of
   both nodes where both have one, and the overlay's value everywhere else.
   */
  lemma {:induction false} MergedAt(base: Fields, overlay: Fields, path: seq<string>, q: seq<string>)
    requires q != []
    ensures At(Merge(base, overlay, path), q) ==
      if Untouched(base, overlay, path, q) then At(base, q)
      else if MergesTo(base, overlay, path, q) then Some(Node(Merge(FieldsAt(base, q), FieldsAt(overlay, q), path + q)))
      else At(overlay, q)
    decreases |q|
  {
    hide Untouched, MergesTo;
    var key := q[0];
    if key !in overlay {
      StopsAtOnce(base, overlay, path, q);
    } else if !Mergeable(base, overlay, path, key) {
      ReplacedAtOnce(base, overlay, path, q);
    } else if |q| == 1 {
      assert q == [key];
      BothEndHere(base, overlay, path, key);
    } else {
      UntouchedBelow(base, overlay, path, q);
      MergesBelow(base, overlay, path, q);
      MergedAt(base[key].fields, overlay[key].fields, path + [key], q[1..]);
      assert path + [key] + q[1..] == path + q;
    }
  }

  /** The fields of the node at `q`, if there is one. */
  function FieldsAt(fields: Fields, q: seq<string>): Fields
    requires q != []
  {
    if IsNode(At(fields, q)) then At(fields, q).value.fields else map[]
  }

  lemma BothEndHere(base: Fields, overlay: Fields, path: seq<string>, key: string)
    requires key in overlay && Mergeable(base, overlay, path, key)
    ensures MergesTo(base, overlay, path, [key]) && !Untouched(base, overlay, path, [key])
  {
    FirstJoins(base, overlay, path, [key]);
    assert [key][..1] == [key];
    forall k | 0 <= k < 1 ensures !StopsAt(base, overlay, path, [key], k) {
    }
  }

  /** A merged node has the keys of both sides. */
  lemma MergedKeys(base: Fields, overlay: Fields, path: seq<string>, q: seq<string>)
    requires q != [] && MergesTo(base, overlay, path, q) && !Untouched(base, overlay, path, q)
    ensures IsNode(At(Merge(base, overlay, path), q))
    ensures FieldsAt(Merge(base, overlay, path), q).Keys == FieldsAt(base, q).Keys + FieldsAt(overlay, q).Keys
  {
    hide MergesTo, Untouched;
    MergedAt(base, overlay, path, q);
  }

  lemma {:induction false} PrefixesThere(fields: Fields, q: seq<string>, k: nat)
    requires q != [] && At(fields, q).Some? && 0 < k <= |q|
    ensures At(fields, q[..k]).Some?
    decreases |q|
  {
    if k == |q| {
      assert q[..k] == q;
    } else if k > 1 {
      assert q[..k][1..] == q[1..][..k - 1];
      PrefixesThere(fields[q[0]].fields, q[1..], k - 1);
    }
  }

  /** Whatever the overlay sets to something other than a node is what the result has. */
  lemma OverlayValuesWin(base: Fields, overlay: Fields, q: seq<string>)
    requires q != [] && At(overlay, q).Some? && At(overlay, q).value.Leaf?
    ensures At(Merge(base, overlay, []), q) == At(overlay, q)
  {
    MergedAt(base, overlay, [], q);
    forall k | 0 <= k < |q| ensures !StopsAt(base, overlay, [], q, k) {
      PrefixesThere(overlay, q, k + 1);
    }
    assert q[..|q| - 1 + 1] == q;
    assert !JoinsAfter(base, overlay, [], q, |q| - 1);
  }

  /** A tier the overlay names is exactly the overlay's, at every path inside it. */
  lemma TiersAreReplaced(base: Fields, overlay: Fields, tier: string, inside: seq<string>)
    requires At(overlay, ["llm", "tiers", tier]).Some?
    ensures At(Merge(base, overlay, []), ["llm", "tiers", tier] + inside) == At(overlay, ["llm", "tiers", tier] + inside)
  {
    var q := ["llm", "tiers", tier] + inside;
    MergedAt(base, overlay, [], q);
    assert q[..3] == ["llm", "tiers", tier];
    assert [] + q[..3][..2] == REPLACE_CHILDREN_OF;
    assert !JoinsAfter(base, overlay, [], q, 2);
    forall k | 0 <= k < |q| ensures !StopsAt(base, overlay, [], q, k) {
      if k < 3 {
        PrefixesThere(overlay, q[..3], k + 1);
        assert q[..3][..k + 1] == q[..k + 1];
      } else {
        assert q[..k][..2 + 1] == q[..3];
        assert !JoinsAfter(base, overlay, [], q[..k], 2);
      }
    }
  }

  // ---------------------------------------------------------------------- the loop

  method DeepMergeLoop(base: Fields, overlay: Fields, path: seq<string>) returns (merged: Fields)
    ensures merged == Merge(base, overlay, path)
    decreases Node(overlay)
  {
    hide Merge, Halfway;
    merged := base;
    var left := overlay.Keys;
    HalfwayStart(base, overlay, path);
    while left != {}
      invariant left <= overlay.Keys
      invariant Halfway(base, overlay, path, left, merged)
      decreases |left|
    {
      var key :| key in left;
      var value := overlay[key];
      HalfwayLook(base, overlay, path, left, merged, key);
      MergedKey(base, overlay, path, key);
      HalfwayTurn(base, overlay, path, left, merged, key);
      var mergeable := value.Node? && key in merged && merged[key].Node?;
      if mergeable && path != REPLACE_CHILDREN_OF {
        var below := DeepMergeLoop(merged[key].fields, value.fields, path + [key]);
        merged := merged[key := Node(below)];
      } else {
        merged := merged[key := value];
      }
      left := left - {key};
    }
    HalfwayDone(base, overlay, path, merged);
  }

  lemma HalfwayStart(base: Fields, overlay: Fields, path: seq<string>)
    ensures Halfway(base, overlay, path, overlay.Keys, base)
  {
  }

  lemma HalfwayLook(base: Fields, overlay: Fields, path: seq<string>, left: set<string>, merged: Fields, key: string)
    requires Halfway(base, overlay, path, left, merged) && key in left && left <= overlay.Keys
    ensures key in merged <==> key in base
    ensures key in base ==> merged[key] == base[key]
  {
  }

  lemma HalfwayTurn(base: Fields, overlay: Fields, path: seq<string>, left: set<string>, merged: Fields, key: string)
    requires Halfway(base, overlay, path, left, merged) && key in left && left <= overlay.Keys
    ensures key in Merge(base, overlay, path)
    ensures Halfway(base, overlay, path, left - {key}, merged[key := Merge(base, overlay, path)[key]])
  {
    MergedKey(base, overlay, path, key);
    hide Merge;
    assert base.Keys + (overlay.Keys - (left - {key})) == base.Keys + (overlay.Keys - left) + {key};
  }

  lemma HalfwayDone(base: Fields, overlay: Fields, path: seq<string>, merged: Fields)
    requires Halfway(base, overlay, path, {}, merged)
    ensures merged == Merge(base, overlay, path)
  {
    assert merged.Keys == Merge(base, overlay, path).Keys;
  }

  /** The keys not in `left` are done, and the others still as in the base. */
  predicate Halfway(base: Fields, overlay: Fields, path: seq<string>, left: set<string>, merged: Fields) {
    && merged.Keys == base.Keys + (overlay.Keys - left)
    && var whole := Merge(base, overlay, path);
    && forall key | key in merged ::
      if key in overlay && key !in left then key in whole && merged[key] == whole[key] else key in base && merged[key] == base[key]
  }

  lemma MergedKey(base: Fields, overlay: Fields, path: seq<string>, key: string)
    requires key in overlay
    ensures key in Merge(base, overlay, path)
    ensures Merge(base, overlay, path)[key] ==
      if Mergeable(base, overlay, path, key) then Node(Merge(base[key].fields, overlay[key].fields, path + [key])) else overlay[key]
  {
  }
}
