/** The deep merge of configuration trees. Objects are maps: like Python's equality, they do not depend on key order. */
module DeepMerge {
  import opened Common

  datatype Json = Null | Bool(b: bool) | Number(n: real) | Text(s: string) | Array(items: seq<Json>) | Object(fields: map<string, Json>)

  type Fields = map<string, Json>

  /** The specification: override wins unless both sides are objects. */
  function Merged(base: Fields, over: Fields): Fields
    decreases Object(over)
  {
    map k | k in base.Keys + over.Keys ::
      if k !in over then base[k]
      else if k in base && base[k].Object? && over[k].Object? then Object(Merged(base[k].fields, over[k].fields))
      else over[k]
  }

  /** Adding a key to the override changes the merge at that key only. */
  lemma MergeExtend(base: Fields, over: Fields, key: string, value: Json)
    requires key !in over
    ensures Merged(base, over[key := value]) == Merged(base, over)[key :=
      if key in base && base[key].Object? && value.Object? then Object(Merged(base[key].fields, value.fields)) else value]
  {
  }

  lemma MergeOutside(base: Fields, over: Fields, key: string)
    requires key !in over
    ensures (key in Merged(base, over) <==> key in base) && (key in base ==> Merged(base, over)[key] == base[key])
  {
  }

  /** The loop of the source: copy the base, then go over the keys of the override. */
  method Merge(base: Fields, over: Fields) returns (merged: Fields)
    ensures merged == Merged(base, over)
    decreases Object(over)
  {
    merged := base;
    var keys := over.Keys;
    ghost var done: Fields := map[];
    while keys != {}
      invariant keys <= over.Keys && done == over - keys
      invariant merged == Merged(base, done)
      decreases |keys|
    {
      var key :| key in keys;
      var value := over[key];
      MergeOutside(base, done, key);
      MergeExtend(base, done, key, value);
      if key in merged && merged[key].Object? && value.Object? {
        var inner := Merge(merged[key].fields, value.fields);
        merged := merged[key := Object(inner)];
      } else {
        merged := merged[key := value];
      }
      keys := keys - {key};
      done := done[key := value];
    }
    assert done == over;
  }

  // ----- the merge, path by path

  /** The value at a path of keys. */
  function At(j: Json, path: seq<string>): Option<Json>
    decreases |path|
  {
    if path == [] then Some(j)
    else if j.Object? && path[0] in j.fields then At(j.fields[path[0]], path[1..])
    else None
  }

  /** Some proper prefix of the path ends, in j, at a value that is not an object. */
  predicate CutShort(j: Json, path: seq<string>)
    decreases |path|
  {
    path != [] && (!j.Object? || (path[0] in j.fields && CutShort(j.fields[path[0]], path[1..])))
  }

  /**
   Override wins unless both sides are objects, at every path: a value of the override is there, merged with the base's
   if both are objects; where the override says nothing the base's value is there, unless the override cut it off.
   */
  lemma {:induction false} MergeAt(base: Fields, over: Fields, path: seq<string>)
    ensures var b, o := At(Object(base), path), At(Object(over), path);
      At(Object(Merged(base, over)), path) ==
        if o.Some? && o.value.Object? && b.Some? && b.value.Object? then Some(Object(Merged(b.value.fields, o.value.fields)))
        else if o.Some? then o
        else if CutShort(Object(over), path) then None
        else b
    decreases |path|
  {
    if path != [] {
      var k, rest := path[0], path[1..];
      if k in over && k in base && base[k].Object? && over[k].Object? {
        MergeAt(base[k].fields, over[k].fields, rest);
      } else if k in over {
        MissingAt(over[k], rest);
        if k in base && !base[k].Object? && over[k].Object? {
          assert rest != [] ==> At(base[k], rest).None?;
        }
      }
    }
  }

  /** A path that is missing without having been cut short leaves an object at a key it does not have. */
  lemma {:induction false} MissingAt(j: Json, path: seq<string>)
    ensures CutShort(j, path) ==> At(j, path).None?
    decreases |path|
  {
    if path != [] && j.Object? && path[0] in j.fields {
      MissingAt(j.fields[path[0]], path[1..]);
    }
  }

  // ----- laws

  /** Merging c over a leaves nothing of a: every key of a is in c, and so on inside the objects of both. */
  predicate Covers(c: Fields, a: Fields)
    decreases Object(a)
  {
    forall k :: k in a ==> k in c && (a[k].Object? && c[k].Object? ==> Covers(c[k].fields, a[k].fields))
  }

  lemma {:induction false} AbsorbedExact(a: Fields, c: Fields)
    ensures Merged(a, c) == c <==> Covers(c, a)
    decreases Object(a)
  {
    var m := Merged(a, c);
    forall k | k in a && k in c && a[k].Object? && c[k].Object?
      ensures m[k] == c[k] <==> Covers(c[k].fields, a[k].fields)
    {
      AbsorbedExact(a[k].fields, c[k].fields);
    }
    if m == c {
      forall k | k in a
        ensures k in c && (a[k].Object? && c[k].Object? ==> Covers(c[k].fields, a[k].fields))
      {
        assert k in m;
      }
    }
    if Covers(c, a) {
      assert m.Keys == c.Keys;
      assert forall k :: k in c ==> m[k] == c[k];
    }
  }

  lemma {:induction false} CoversSelf(a: Fields)
    ensures Covers(a, a)
    decreases Object(a)
  {
    forall k | k in a && a[k].Object?
      ensures Covers(a[k].fields, a[k].fields)
    {
      CoversSelf(a[k].fields);
    }
  }

  lemma {:induction false} MergeCoversOverride(a: Fields, b: Fields)
    ensures Covers(Merged(a, b), b)
    decreases Object(b)
  {
    forall k | k in b && b[k].Object?
      ensures Merged(a, b)[k].Object? && Covers(Merged(a, b)[k].fields, b[k].fields)
    {
      if k in a && a[k].Object? {
        MergeCoversOverride(a[k].fields, b[k].fields);
      } else {
        CoversSelf(b[k].fields);
      }
    }
  }

  lemma {:induction false} MergeAgain(a: Fields, b: Fields)
    ensures Merged(Merged(a, b), b) == Merged(a, b)
    decreases Object(b)
  {
    var m := Merged(a, b);
    forall k | k in b && b[k].Object?
      ensures m[k].Object? && Merged(m[k].fields, b[k].fields) == m[k].fields
    {
      if k in a && a[k].Object? {
        MergeAgain(a[k].fields, b[k].fields);
      } else {
        MergeSelf(b[k].fields);
      }
    }
    assert Merged(m, b).Keys == m.Keys;
  }

  /** Merging a tree with itself, with nothing, or the same override a second time changes nothing. */
  lemma MergeSelf(a: Fields)
    ensures Merged(a, a) == a && Merged(a, map[]) == a && Merged(map[], a) == a
  {
    CoversSelf(a);
    AbsorbedExact(a, a);
  }

  /**
   Where a and c both have an object, b has nothing, or an object that associates with them,
   or some other value, and then c's object covers a's.
   */
  predicate Associates(a: Fields, b: Fields, c: Fields)
    decreases Object(a), 1
  {
    forall k :: k in a ==> AssociatesAt(a, b, c, k)
  }

  predicate AssociatesAt(a: Fields, b: Fields, c: Fields, k: string)
    requires k in a
    decreases Object(a), 0
  {
    k in b && k in c && a[k].Object? && c[k].Object? ==>
      if b[k].Object? then Associates(a[k].fields, b[k].fields, c[k].fields) else Covers(c[k].fields, a[k].fields)
  }

  lemma {:induction false} AssociativeAt(a: Fields, b: Fields, c: Fields, k: string)
    requires k in a || k in b || k in c
    ensures Merged(Merged(a, b), c)[k] == Merged(a, Merged(b, c))[k] <==> (k in a ==> AssociatesAt(a, b, c, k))
    decreases Object(a), 0
  {
    if k in a && k in b && k in c && a[k].Object? && c[k].Object? {
      if b[k].Object? {
        AssociativeExact(a[k].fields, b[k].fields, c[k].fields);
      } else {
        AbsorbedExact(a[k].fields, c[k].fields);
      }
    }
  }

  /** The merge is associative for exactly these triples. */
  lemma {:induction false} AssociativeExact(a: Fields, b: Fields, c: Fields)
    ensures Merged(Merged(a, b), c) == Merged(a, Merged(b, c)) <==> Associates(a, b, c)
    decreases Object(a), 1
  {
    var left, right := Merged(Merged(a, b), c), Merged(a, Merged(b, c));
    forall k | k in a || k in b || k in c
      ensures left[k] == right[k] <==> (k in a ==> AssociatesAt(a, b, c, k))
    {
      AssociativeAt(a, b, c, k);
    }
    KeyByKey(left, right, a, b, c);
  }

  lemma KeyByKey(left: Fields, right: Fields, a: Fields, b: Fields, c: Fields)
    requires left.Keys == right.Keys && a.Keys <= left.Keys
    requires forall k :: k in left ==> (left[k] == right[k] <==> (k in a ==> AssociatesAt(a, b, c, k)))
    ensures left == right <==> Associates(a, b, c)
  {
    if left != right {
      var k :| k in left && left[k] != right[k];
    }
  }

  /** A scalar between two objects: merged from the left it wipes the first object out, from the right it is gone before. */
  lemma ScalarBetweenObjects()
    ensures var a, b, c := map["x" := Object(map["y" := Null])], map["x" := Null], map["x" := Object(map[])];
      Merged(Merged(a, b), c) != Merged(a, Merged(b, c))
  {
    var a: Fields, b: Fields, c: Fields :=
      map["x" := Object(map["y" := Null])], map["x" := Null], map["x" := Object(map[])];
    assert "y" in a["x"].fields && "x" in a && !AssociatesAt(a, b, c, "x");
    AssociativeExact(a, b, c);
  }
}
