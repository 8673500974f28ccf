/**
 * Tags: (scope, value) pairs attached to remote load-balancer objects, the superset match
 * `checkTags`, the first-match lookup `getTag`, and the copy-on-write `Tags` collection
 * (one tag per scope) with its canonical, scope-sorted serialisation `Normalize`.
 */
module TagAlgebra {
  import Strings

  /** NSX-T `common.Tag`: the field `Tag` of the Go struct is `tag` here. */
  datatype Tag = Tag(scope: string, tag: string)

  /** Index of the first tag with the given scope, or `|tags|` when there is none:
      the inner loop of `checkTags`. */
  function IndexOfScope(tags: seq<Tag>, scope: string): (i: nat)
    ensures i <= |tags|
    ensures i < |tags| ==> tags[i].scope == scope
    ensures forall j :: 0 <= j < i ==> tags[j].scope != scope
    decreases |tags|
  {
    if |tags| == 0 then 0
    else if tags[0].scope == scope then 0
    else 1 + IndexOfScope(tags[1..], scope)
  }

  predicate HasScope(tags: seq<Tag>, scope: string) {
    exists i :: 0 <= i < |tags| && tags[i].scope == scope
  }

  /** `checkTags(tags, required...)`: for every required tag, the first candidate with its scope
      must carry its value; a missing scope fails. */
  function CheckTags(tags: seq<Tag>, required: seq<Tag>): bool
    decreases |required|
  {
    if |required| == 0 then true
    else
      var i := IndexOfScope(tags, required[0].scope);
      i < |tags| && tags[i].tag == required[0].tag && CheckTags(tags, required[1..])
  }

  /** `getTag(tags, scope)`: the value of the first tag with that scope, or "". */
  function GetTag(tags: seq<Tag>, scope: string): string
    decreases |tags|
  {
    if |tags| == 0 then ""
    else if tags[0].scope == scope then tags[0].tag
    else GetTag(tags[1..], scope)
  }

  lemma {:induction false} GetTagIsFirstMatch(tags: seq<Tag>, scope: string)
    ensures var i := IndexOfScope(tags, scope);
            GetTag(tags, scope) == if i < |tags| then tags[i].tag else ""
    ensures !HasScope(tags, scope) ==> GetTag(tags, scope) == ""
    decreases |tags|
  {
    if |tags| > 0 && tags[0].scope != scope {
      GetTagIsFirstMatch(tags[1..], scope);
      if !HasScope(tags, scope) {
        assert !HasScope(tags[1..], scope) by {
          forall j | 0 <= j < |tags[1..]| ensures tags[1..][j].scope != scope {
            assert tags[1..][j] == tags[j + 1];
          }
        }
      }
    }
  }

  lemma HasScopeIndex(tags: seq<Tag>, scope: string)
    ensures HasScope(tags, scope) <==> IndexOfScope(tags, scope) < |tags|
  {
  }

  /** `checkTags` is exactly "every required scope is present and `getTag` gives its value". */
  lemma {:induction false} CheckTagsIff(tags: seq<Tag>, required: seq<Tag>)
    ensures CheckTags(tags, required) <==>
            forall j :: 0 <= j < |required| ==>
              HasScope(tags, required[j].scope) && GetTag(tags, required[j].scope) == required[j].tag
    decreases |required|
  {
    if |required| > 0 {
      CheckTagsIff(tags, required[1..]);
      GetTagIsFirstMatch(tags, required[0].scope);
      HasScopeIndex(tags, required[0].scope);
      forall j | 0 < j < |required| ensures required[j] == required[1..][j - 1] { }
      if CheckTags(tags, required) {
        forall j | 0 <= j < |required|
          ensures HasScope(tags, required[j].scope) && GetTag(tags, required[j].scope) == required[j].tag
        {
          if j > 0 {
            assert required[j] == required[1..][j - 1];
          }
        }
      }
    }
  }

  /** With no required tags every candidate list passes. */
  lemma CheckTagsNoneRequired(tags: seq<Tag>)
    ensures CheckTags(tags, [])
  {
  }

  /** Only the first candidate with a required scope is compared: if its value differs the
      check fails, whatever later candidates with that scope carry. */
  lemma CheckTagsFirstOnly(tags: seq<Tag>, req: Tag, rest: seq<Tag>, i: nat)
    requires i < |tags| && tags[i].scope == req.scope && tags[i].tag != req.tag
    requires forall j :: 0 <= j < i ==> tags[j].scope != req.scope
    ensures !CheckTags(tags, [req] + rest)
  {
    assert IndexOfScope(tags, req.scope) == i;
  }

  /** A required scope missing from the candidates makes the check fail. */
  lemma CheckTagsMissingScope(tags: seq<Tag>, required: seq<Tag>, j: nat)
    requires j < |required| && !HasScope(tags, required[j].scope)
    ensures !CheckTags(tags, required)
  {
    CheckTagsIff(tags, required);
  }

  lemma {:induction false} IndexOfScopeAppend(tags: seq<Tag>, extra: seq<Tag>, scope: string)
    ensures var i := IndexOfScope(tags, scope);
            IndexOfScope(tags + extra, scope) ==
              if i < |tags| then i else |tags| + IndexOfScope(extra, scope)
    decreases |tags|
  {
    if |tags| == 0 {
      assert tags + extra == extra;
    } else {
      assert (tags + extra)[0] == tags[0];
      assert (tags + extra)[1..] == tags[1..] + extra;
      IndexOfScopeAppend(tags[1..], extra, scope);
    }
  }

  /** Appending candidates whose scopes are not required, or whose scopes the candidate list
      already has, never changes the result of the check. */
  lemma {:induction false} CheckTagsAppendUnrelated(tags: seq<Tag>, extra: seq<Tag>, required: seq<Tag>)
    requires forall e, r :: e in extra && r in required && e.scope == r.scope ==> HasScope(tags, e.scope)
    ensures CheckTags(tags + extra, required) == CheckTags(tags, required)
    decreases |required|
  {
    if |required| > 0 {
      var s := required[0].scope;
      IndexOfScopeAppend(tags, extra, s);
      HasScopeIndex(tags, s);
      CheckTagsAppendUnrelated(tags, extra, required[1..]);
    }
  }

  /** The tags collection keyed by scope: every entry is stored under its own scope. */
  predicate KeyedByScope(m: map<string, Tag>) {
    forall s :: s in m ==> m[s].scope == s
  }

  type Tags = m: map<string, Tag> | KeyedByScope(m) witness map[]

  /** The scopes of a list of tags. */
  function Scopes(ts: seq<Tag>): set<string> {
    set t | t in ts :: t.scope
  }

  /** `Tags.Add(ts...)`: a new collection with each tag stored under its scope, later tags
      overwriting earlier ones; the receiver is a value and stays as it was. */
  function Add(m: Tags, ts: seq<Tag>): Tags
    decreases |ts|
  {
    if |ts| == 0 then m
    else
      var last := ts[|ts| - 1];
      Add(m, ts[..|ts| - 1])[last.scope := last]
  }

  /** The last tag of `ts` whose scope is `s`. */
  function LastWithScope(ts: seq<Tag>, s: string): (t: Tag)
    requires s in Scopes(ts)
    ensures t in ts && t.scope == s
    decreases |ts|
  {
    var last := ts[|ts| - 1];
    if last.scope == s then last
    else
      assert s in Scopes(ts[..|ts| - 1]) by {
        var t :| t in ts && t.scope == s;
        var i :| 0 <= i < |ts| && ts[i] == t;
        assert ts[..|ts| - 1][i] == t;
      }
      LastWithScope(ts[..|ts| - 1], s)
  }

  lemma ScopesSnoc(ts: seq<Tag>, t: Tag)
    ensures Scopes(ts + [t]) == Scopes(ts) + {t.scope}
  {
    assert forall u :: u in ts + [t] <==> u in ts || u == t;
  }

  /** What `Add` stores: the old scopes plus the new ones; a new scope gets the last tag given
      for it, every other scope keeps its old tag. */
  lemma {:induction false} AddEntries(m: Tags, ts: seq<Tag>)
    ensures Add(m, ts).Keys == m.Keys + Scopes(ts)
    ensures forall s :: s in Add(m, ts) ==>
              Add(m, ts)[s] == if s in Scopes(ts) then LastWithScope(ts, s) else m[s]
    decreases |ts|
  {
    if |ts| > 0 {
      var init, last := ts[..|ts| - 1], ts[|ts| - 1];
      assert ts == init + [last];
      AddEntries(m, init);
      ScopesSnoc(init, last);
    }
  }

  /** Adding in two calls is adding everything in one call. */
  lemma {:induction false} AddConcat(m: Tags, a: seq<Tag>, b: seq<Tag>)
    ensures Add(Add(m, a), b) == Add(m, a + b)
    decreases |b|
  {
    if |b| == 0 {
      assert a + b == a;
    } else {
      assert (a + b)[..|a + b| - 1] == a + b[..|b| - 1];
      assert (a + b)[|a + b| - 1] == b[|b| - 1];
      AddConcat(m, a, b[..|b| - 1]);
    }
  }

  /** Tags with pairwise distinct scopes. */
  predicate DistinctScopes(ts: seq<Tag>) {
    forall i, j :: 0 <= i < j < |ts| ==> ts[i].scope != ts[j].scope
  }

  lemma LastWithScopeUnique(ts: seq<Tag>, t: Tag)
    requires DistinctScopes(ts) && t in ts
    ensures t.scope in Scopes(ts) && LastWithScope(ts, t.scope) == t
  {
    var u := LastWithScope(ts, t.scope);
    var i :| 0 <= i < |ts| && ts[i] == t;
    var j :| 0 <= j < |ts| && ts[j] == u;
    assert i == j;
  }

  /** Adding tags with new, distinct scopes gives exactly the old entries plus the new tags. */
  lemma AddFreshScopes(m: Tags, ts: seq<Tag>)
    requires DistinctScopes(ts)
    requires forall t :: t in ts ==> t.scope !in m
    ensures |Add(m, ts)| == |m| + |ts|
    ensures forall s :: s in m ==> s in Add(m, ts) && Add(m, ts)[s] == m[s]
    ensures forall t :: t in ts ==> t.scope in Add(m, ts) && Add(m, ts)[t.scope] == t
  {
    AddEntries(m, ts);
    forall t | t in ts ensures t.scope in Add(m, ts) && Add(m, ts)[t.scope] == t {
      LastWithScopeUnique(ts, t);
    }
    DistinctScopesCard(ts);
    assert m.Keys !! Scopes(ts);
    assert |Add(m, ts).Keys| == |m.Keys| + |Scopes(ts)|;
  }

  lemma {:induction false} DistinctScopesCard(ts: seq<Tag>)
    requires DistinctScopes(ts)
    ensures |Scopes(ts)| == |ts|
    decreases |ts|
  {
    if |ts| > 0 {
      var init, last := ts[..|ts| - 1], ts[|ts| - 1];
      assert ts == init + [last];
      DistinctScopesCard(init);
      ScopesSnoc(init, last);
      assert last.scope !in Scopes(init);
    }
  }

  /** Adding a tag whose scope is present replaces that one entry and keeps the others. */
  lemma AddReplace(m: Tags, t: Tag)
    requires t.scope in m
    ensures Add(m, [t]) == m[t.scope := t]
    ensures |Add(m, [t])| == |m|
  {
    assert [t][..0] == [];
    assert m[t.scope := t].Keys == m.Keys;
  }

  /** With distinct scopes the order in which tags are added does not matter. */
  lemma AddOrderIrrelevant(m: Tags, ts: seq<Tag>, us: seq<Tag>)
    requires DistinctScopes(ts) && DistinctScopes(us)
    requires forall t :: t in ts <==> t in us
    ensures Add(m, ts) == Add(m, us)
  {
    var a, b := Add(m, ts), Add(m, us);
    AddEntries(m, ts);
    AddEntries(m, us);
    assert Scopes(ts) == Scopes(us);
    forall s | s in a ensures s in b && a[s] == b[s] {
      if s in Scopes(ts) {
        var t := LastWithScope(ts, s);
        LastWithScopeUnique(us, t);
      }
    }
    assert a.Keys == b.Keys;
  }

  /** Strictly ascending scopes. */
  predicate SortedByScope(r: seq<Tag>) {
    forall i, j :: 0 <= i < j < |r| ==> Strings.Less(r[i].scope, r[j].scope)
  }

  /** `Tags.Normalize()`: every entry once, ordered by ascending scope. */
  function Normalize(m: Tags): (r: seq<Tag>)
    ensures |r| == |m|
    ensures SortedByScope(r)
    ensures forall i :: 0 <= i < |r| ==> r[i].scope in m && m[r[i].scope] == r[i]
    ensures forall s :: s in m ==> m[s] in r
    decreases |m|
  {
    if |m| == 0 then []
    else
      var k := Strings.Least(m.Keys);
      var rest := m - {k};
      assert |rest.Keys| == |m.Keys| - 1;
      var tail := Normalize(rest);
      NormalizeStep(m, k, rest, tail);
      [m[k]] + tail
  }

  lemma NormalizeStep(m: Tags, k: string, rest: Tags, tail: seq<Tag>)
    requires Strings.IsLeast(k, m.Keys) && rest == m - {k}
    requires |tail| == |rest| && SortedByScope(tail)
    requires forall i :: 0 <= i < |tail| ==> tail[i].scope in rest && rest[tail[i].scope] == tail[i]
    requires forall s :: s in rest ==> rest[s] in tail
    ensures SortedByScope([m[k]] + tail)
    ensures forall i :: 0 <= i < |[m[k]] + tail| ==>
              ([m[k]] + tail)[i].scope in m && m[([m[k]] + tail)[i].scope] == ([m[k]] + tail)[i]
    ensures forall s :: s in m ==> m[s] in [m[k]] + tail
  {
    var r := [m[k]] + tail;
    forall i, j | 0 <= i < j < |r| ensures Strings.Less(r[i].scope, r[j].scope) {
      if i == 0 {
        assert r[j] == tail[j - 1];
        assert r[j].scope in rest;
      } else {
        assert r[i] == tail[i - 1] && r[j] == tail[j - 1];
      }
    }
    forall i | 0 <= i < |r| ensures r[i].scope in m && m[r[i].scope] == r[i] {
      if i > 0 {
        assert r[i] == tail[i - 1];
      }
    }
    forall s | s in m ensures m[s] in r {
      if s != k {
        assert s in rest;
      }
    }
  }

  /** Two scope-sorted lists holding the same tags are equal. */
  lemma {:induction false} SortedUnique(r1: seq<Tag>, r2: seq<Tag>)
    requires SortedByScope(r1) && SortedByScope(r2)
    requires forall t :: t in r1 <==> t in r2
    ensures r1 == r2
    decreases |r1|
  {
    if |r2| > 0 {
      assert r2[0] in r2;
    }
    if |r1| > 0 {
      assert r1[0] in r1 && r2 != [];
      assert r2[0] in r2;
      var i :| 0 <= i < |r1| && r1[i] == r2[0];
      var j :| 0 <= j < |r2| && r2[j] == r1[0];
      if i > 0 && j > 0 {
        Strings.LessAsymmetric(r1[0].scope, r2[0].scope);
      }
      assert r1[0] == r2[0];
      forall t ensures t in r1[1..] <==> t in r2[1..] {
        if t in r1[1..] {
          var k :| 1 <= k < |r1| && r1[k] == t;
          assert Strings.Less(r1[0].scope, t.scope);
          Strings.LessIrreflexive(t.scope);
          assert t in r2;
          assert t != r2[0];
          var l :| 0 <= l < |r2| && r2[l] == t;
          assert r2[1..][l - 1] == t;
        }
        if t in r2[1..] {
          var k :| 1 <= k < |r2| && r2[k] == t;
          assert Strings.Less(r2[0].scope, t.scope);
          Strings.LessIrreflexive(t.scope);
          assert t in r1;
          var l :| 0 <= l < |r1| && r1[l] == t;
          assert r1[1..][l - 1] == t;
        }
      }
      SortedUnique(r1[1..], r2[1..]);
      assert r1 == [r1[0]] + r1[1..] && r2 == [r2[0]] + r2[1..];
    }
  }

  /** `Normalize` is the one scope-sorted listing of the entries: the canonical form. */
  lemma NormalizeCanonical(m: Tags, r: seq<Tag>)
    requires SortedByScope(r)
    requires forall t :: t in r <==> t.scope in m && m[t.scope] == t
    ensures r == Normalize(m)
  {
    var n := Normalize(m);
    forall t ensures t in n <==> t in r {
      if t.scope in m && m[t.scope] == t {
        assert t in n;
      }
    }
    SortedUnique(n, r);
  }
}
