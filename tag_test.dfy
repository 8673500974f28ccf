/**
 * The behaviour of the `Tags` collection that `TestTagAdd` asserts, with `_checkTags` and
 * `_checkNormTags` as predicates.
 */
module TagTest {
  import opened TagAlgebra
  import Strings

  /** `_checkTags`: as many entries as expected tags, and each expected tag stored under its scope. */
  predicate SameTags(tags: Tags, expected: seq<Tag>) {
    |tags| == |expected| && forall t :: t in expected ==> t.scope in tags && tags[t.scope] == t
  }

  /** `_checkNormTags`: the same length and the same tag at every position. */
  predicate SameNormTags(tags: seq<Tag>, expected: seq<Tag>) {
    |tags| == |expected| && forall i :: 0 <= i < |expected| ==> tags[i] == expected[i]
  }

  const T1: Tag := Tag("t1", "v1")
  const T1a: Tag := Tag("t1", "v1a")
  const T2: Tag := Tag("t2", "v2")
  const T3: Tag := Tag("t3", "v3")
  const NoTags: Tags := map[]

  lemma SortedT123()
    ensures SortedByScope([T1, T2, T3])
  {
    assert Strings.Less("t1", "t2") by { assert "t1"[1..] == "1" && "t2"[1..] == "2"; }
    assert Strings.Less("t2", "t3") by { assert "t2"[1..] == "2" && "t3"[1..] == "3"; }
    assert Strings.Less("t1", "t3") by { assert "t1"[1..] == "1" && "t3"[1..] == "3"; }
  }

  /** The first two tags, with distinct scopes. */
  function Simple(): Tags {
    Add(NoTags, [T1, T2])
  }

  lemma SimpleEntries()
    ensures Simple() == map["t1" := T1, "t2" := T2]
  {
    AddEntries(NoTags, [T1, T2]);
    assert Scopes([T1, T2]) == {"t1", "t2"} by {
      assert T1 in [T1, T2] && T2 in [T1, T2];
    }
    LastWithScopeUnique([T1, T2], T1);
    LastWithScopeUnique([T1, T2], T2);
  }

  /** "original tags still empty after add" and "simple add". */
  lemma TestSimpleAdd()
    ensures SameTags(NoTags, [])
    ensures SameTags(Simple(), [T1, T2])
  {
    AddFreshScopes(NoTags, [T1, T2]);
  }

  /** "replacing keeps original unchanged" and "replace tag". */
  lemma TestReplace()
    ensures SameTags(Simple(), [T1, T2])
    ensures SameTags(Add(Simple(), [T1a]), [T1a, T2])
  {
    var n := Simple();
    TestSimpleAdd();
    SimpleEntries();
    AddReplace(n, T1a);
  }

  /** "adding keeps original unchanged" and "add tag". */
  lemma TestAddNew()
    ensures SameTags(Simple(), [T1, T2])
    ensures SameTags(Add(Simple(), [T3]), [T1, T2, T3])
  {
    var n := Simple();
    TestSimpleAdd();
    SimpleEntries();
    AddFreshScopes(n, [T3]);
  }

  /** "Normalize tags". */
  lemma TestNormalize()
    ensures SameNormTags(Normalize(Add(Simple(), [T3])), [T1, T2, T3])
  {
    var full := Add(Simple(), [T3]);
    SimpleEntries();
    assert [T3][..0] == [];
    assert full == Add(Simple(), [])[T3.scope := T3];
    assert T3.scope == "t3";
    assert full == map["t1" := T1, "t2" := T2, "t3" := T3];
    SortedT123();
    NormalizeCanonical(full, [T1, T2, T3]);
  }

  /** "Normalize tags with other add order". */
  lemma TestNormalizeOtherOrder()
    ensures SameNormTags(Normalize(Add(Add(NoTags, [T3]), [T2, T1])), [T1, T2, T3])
  {
    AddConcat(NoTags, [T1, T2], [T3]);
    AddConcat(NoTags, [T3], [T2, T1]);
    AddOrderIrrelevant(NoTags, [T1, T2] + [T3], [T3] + [T2, T1]);
    TestNormalize();
  }
}
