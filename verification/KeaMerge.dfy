/** Merging Kea configurations (appcfg/kea/keaconfig.go, merge). */
module KeaMerge {

  /** A raw configuration. Only objects are merged inside; everything else but null, arrays
      included, is an indivisible value. */
  datatype Json = Null | Opaque(text: string) | Object(members: map<string, Json>)

  type Members = map<string, Json>

  function WithoutNulls(members: Members): Members {
    map k | k in members && members[k] != Null :: members[k]
  }

  /** Clears explicit nulls, but only those directly in the object. */
  function Stripped(v: Json): Json {
    if v.Object? then Object(WithoutNulls(v.members)) else v
  }

  /** What merging leaves under a key of the source: null stands for no entry. */
  function MergedAt(dest: Members, source: Members, k: string): Json
    requires k in source
    decreases Object(source), 0
  {
    Stripped(if k in dest then Merged(dest[k], source[k]) else source[k])
  }

  /** The merge of two values, key by key. */
  function Merged(dest: Json, source: Json): Json
    decreases source, 1
  {
    if !dest.Object? then source
    else if !source.Object? then dest
    else
      var s := source.members;
      Object(map k | k in dest.members.Keys + s.Keys && (k in s ==> MergedAt(dest.members, s, k) != Null)
        :: if k in s then MergedAt(dest.members, s, k) else dest.members[k])
  }

  /** Merges one key of the source after another, in whatever order they come. */
  method Merge(dest: Json, source: Json) returns (merged: Json)
    ensures merged == Merged(dest, source)
    decreases source
  {
    if !dest.Object? {
      return source;
    }
    if !source.Object? {
      return dest;
    }
    var c1, c2 := dest.members, source.members;
    var rest := c2.Keys;
    while rest != {}
      invariant rest <= c2.Keys
      invariant c1 == PartlyMerged(dest.members, c2, c2.Keys - rest)
    {
      hide Merged, PartlyMerged;
      var k :| k in rest;
      var done := c2.Keys - rest;
      rest := rest - {k};
      assert c2.Keys - rest == done + {k};
      NextKey(dest.members, c2, done, k);
      if k in c1 {
        var v := Merge(c1[k], c2[k]);
        if v != Null {
          c1 := c1[k := v];
        } else {
          c1 := c1 - {k};
        }
      } else if c2[k] != Null {
        c1 := c1[k := c2[k]];
      }
      if k in c1 && c1[k].Object? {
        c1 := c1[k := Object(WithoutNulls(c1[k].members))];
      }
    }
    AllKeys(dest.members, c2);
    return Object(c1);
  }

  /** The destination after the given keys of the source have been visited. */
  function PartlyMerged(dest: Members, source: Members, done: set<string>): Members
    requires done <= source.Keys
  {
    map k | k in dest.Keys + done && (k in done ==> MergedAt(dest, source, k) != Null)
      :: if k in done then MergedAt(dest, source, k) else dest[k]
  }

  lemma NextKey(dest: Members, source: Members, done: set<string>, k: string)
    requires done <= source.Keys && k in source && k !in done
    ensures k in dest <==> k in PartlyMerged(dest, source, done)
    ensures k in dest ==> PartlyMerged(dest, source, done)[k] == dest[k]
    ensures PartlyMerged(dest, source, done + {k})
         == if MergedAt(dest, source, k) == Null then PartlyMerged(dest, source, done) - {k}
            else PartlyMerged(dest, source, done)[k := MergedAt(dest, source, k)]
  {
    hide MergedAt;
  }

  lemma AllKeys(dest: Members, source: Members)
    ensures PartlyMerged(dest, source, {}) == dest
    ensures Object(PartlyMerged(dest, source, source.Keys)) == Merged(Object(dest), Object(source))
  {
    hide MergedAt;
  }

  lemma MergedMembers(dest: Members, source: Members)
    ensures Merged(Object(dest), Object(source)).Object?
    ensures var m := Merged(Object(dest), Object(source)).members;
      && (forall k :: k in m <==> (k in dest || k in source) && (k in source ==> MergedAt(dest, source, k) != Null))
      && (forall k :: k in m ==> m[k] == if k in source then MergedAt(dest, source, k) else dest[k])
  {
  }

  /** What becomes of each key: without a value in the source it keeps its own; an explicit
      null removes it unless it holds an object, which stays; an object is merged into an object;
      and any other value replaces what is there. */
  lemma MergedKeys(dest: Members, source: Members, k: string)
    ensures var merged := Merged(Object(dest), Object(source)).members;
      && (k !in source ==> (k in merged <==> k in dest) && (k in dest ==> merged[k] == dest[k]))
      && (k in source && source[k] == Null ==>
            (k in merged <==> k in dest && dest[k].Object?) && (k in merged ==> merged[k] == Stripped(dest[k])))
      && (k in source && source[k] != Null ==> k in merged)
      && (k in source && source[k] != Null && !(k in dest && dest[k].Object?) ==> merged[k] == Stripped(source[k]))
      && (k in source && source[k].Opaque? && k in dest && dest[k].Object? ==> merged[k] == Stripped(dest[k]))
      && (k in source && source[k].Object? && k in dest && dest[k].Object? ==>
            merged[k] == Stripped(Merged(dest[k], source[k])))
  {
    MergedMembers(dest, source);
    if k in source && k in dest {
      MergedValues(dest[k], source[k]);
    }
  }

  /** Values that are not both objects are not merged inside. */
  lemma MergedValues(dest: Json, source: Json)
    ensures !dest.Object? ==> Merged(dest, source) == source
    ensures dest.Object? && !source.Object? ==> Merged(dest, source) == dest
    ensures dest.Object? && source.Object? ==> Merged(dest, source).Object?
    ensures Stripped(Merged(dest, source)) == Null <==> !dest.Object? && source == Null
  {
  }

  // Explicit nulls

  predicate NullFree(v: Json) {
    v != Null && (v.Object? ==> forall k :: k in v.members ==> NullFree(v.members[k]))
  }

  /** A value that, newly added, leaves no null behind: nulls lie directly in it or nowhere. */
  predicate NullsOnTop(v: Json) {
    v.Object? ==> forall k :: k in v.members ==> v.members[k] == Null || NullFree(v.members[k])
  }

  /** Every null of the source meets the destination: on the way to it the destination has
      objects to merge into, all but the last of which may be missing. */
  predicate NullsMeet(dest: Json, source: Json)
    decreases source
  {
    if !dest.Object? then NullsOnTop(source)
    else source.Object? ==> forall k :: k in source.members ==>
      if k in dest.members then NullsMeet(dest.members[k], source.members[k]) else NullsOnTop(source.members[k])
  }

  lemma StrippedIsNullFree(v: Json)
    ensures Stripped(v) == Null || NullFree(Stripped(v)) <==> NullsOnTop(v)
  {
    if v.Object? {
      forall k | k in v.members && v.members[k] != Null ensures k in WithoutNulls(v.members) {
      }
    }
  }

  lemma NullFreeIsStripped(v: Json)
    requires NullFree(v)
    ensures Stripped(v) == v
  {
    if v.Object? {
      assert WithoutNulls(v.members) == v.members;
    }
  }

  lemma {:induction false} MergedNullFree(dest: Json, source: Json)
    requires NullFree(dest)
    ensures Stripped(Merged(dest, source)) == Null || NullFree(Stripped(Merged(dest, source)))
       <==> NullsMeet(dest, source)
    ensures dest.Object? ==> (NullFree(Merged(dest, source)) <==> NullsMeet(dest, source))
    ensures dest.Object? ==> Stripped(Merged(dest, source)) == Merged(dest, source)
    decreases source
  {
    if !dest.Object? {
      StrippedIsNullFree(source);
    } else if !source.Object? {
      NullFreeIsStripped(dest);
    } else {
      var d, s, m := dest.members, source.members, Merged(dest, source).members;
      MergedMembers(d, s);
      hide Merged;
      forall k | k in s
        ensures (k in m ==> NullFree(m[k])) <==>
          if k in d then NullsMeet(d[k], s[k]) else NullsOnTop(s[k])
      {
        assert MergedAt(d, s, k) == Stripped(if k in d then Merged(d[k], s[k]) else s[k]);
        if k in d {
          MergedNullFree(d[k], s[k]);
        } else {
          StrippedIsNullFree(s[k]);
        }
      }
      assert forall k :: k in m ==> m[k] != Null;
      assert WithoutNulls(m) == m;
      assert forall k :: k in m && k !in s ==> NullFree(m[k]);
      assert NullFree(Object(m)) <==> forall k :: k in m && k in s ==> NullFree(m[k]);
    }
  }

  // Merging the same source again

  /** Merging a value with itself is the identity exactly when it is null-free. */
  lemma {:induction false} SelfMerge(v: Json)
    requires v != Null
    ensures Stripped(Merged(v, v)) == v <==> NullFree(v)
  {
    if v.Object? {
      var m := v.members;
      MergedMembers(m, m);
      var r := Merged(v, v).members;
      hide Merged;
      forall k | k in m
        ensures MergedAt(m, m, k) == Stripped(Merged(m[k], m[k]))
        ensures MergedAt(m, m, k) == Null <==> m[k] == Null
      {
        MergedValues(m[k], m[k]);
      }
      forall k | k in m && m[k] != Null ensures k in r && (r[k] == m[k] <==> NullFree(m[k])) {
        SelfMerge(m[k]);
      }
      assert forall k :: k in r ==> k in m && m[k] != Null;
      assert WithoutNulls(r) == r;
      if NullFree(v) {
        assert forall k :: k in m ==> NullFree(m[k]) && k in r && r[k] == m[k];
        assert r == m;
      }
      if r == m {
        assert forall k :: k in m ==> NullFree(m[k]);
      }
    }
  }

  /** A newly added value is left alone by a second merge exactly when its nulls are on top. */
  lemma AddedTwice(v: Json)
    requires v != Null
    ensures Stripped(Merged(Stripped(v), v)) == Stripped(v) <==> NullsOnTop(v)
  {
    if v.Object? {
      var m, w := v.members, WithoutNulls(v.members);
      MergedMembers(w, m);
      var r := Merged(Object(w), v).members;
      hide Merged;
      forall k | k in m
        ensures MergedAt(w, m, k) == if k in w then Stripped(Merged(m[k], m[k])) else Null
        ensures MergedAt(w, m, k) == Null <==> k !in w
      {
        MergedValues(m[k], m[k]);
      }
      forall k | k in w ensures k in r && (r[k] == w[k] <==> NullFree(w[k])) {
        SelfMerge(m[k]);
      }
      assert forall k :: k in r ==> k in w;
      assert WithoutNulls(r) == r;
      if NullsOnTop(v) {
        assert r == w;
      }
      if r == w {
        assert forall k :: k in m && m[k] != Null ==> k in w && NullFree(m[k]);
      }
    }
  }

  /** One key of the first and of the second merge of the same source. */
  lemma SecondMerge(dest: Members, source: Members, k: string, once: Members)
    requires k in source
    requires k in once <==> MergedAt(dest, source, k) != Null
    requires k in once ==> once[k] == MergedAt(dest, source, k)
    ensures MergedAt(dest, source, k) == Stripped(if k in dest then Merged(dest[k], source[k]) else source[k])
    ensures k in once ==> MergedAt(once, source, k) == Stripped(Merged(once[k], source[k]))
    ensures k in once <==> MergedAt(once, source, k) != Null
  {
    if k in dest {
      MergedValues(dest[k], source[k]);
    }
    if k in once {
      MergedValues(once[k], source[k]);
    }
  }

  /** Without nulls directly in the destination there are none directly in the merge. */
  lemma NothingToStrip(dest: Json, source: Json)
    requires dest.Object? && Stripped(dest) == dest
    ensures Merged(dest, source).Object? && Stripped(Merged(dest, source)) == Merged(dest, source)
  {
    if source.Object? {
      MergedMembers(dest.members, source.members);
      StrippedObject(dest.members);
      StrippedObject(Merged(dest, source).members);
    }
  }

  lemma StrippedObject(members: Members)
    ensures Stripped(Object(members)) == Object(members) <==> forall k :: k in members ==> members[k] != Null
  {
    var w := WithoutNulls(members);
    if w == members {
      assert forall k :: k in w ==> w[k] != Null;
    }
  }

  /** Whether the source's nulls under one key meet the destination. */
  predicate MeetAt(dest: Members, source: Members, k: string)
    requires k in source
  {
    if k in dest then NullsMeet(dest[k], source[k]) else NullsOnTop(source[k])
  }

  /** Merging again changes nothing if it changes nothing under any key. */
  lemma SameAgain(once: Members, source: Members)
    requires Stripped(Object(once)) == Object(once)
    requires forall k :: k in source ==> (k in once <==> MergedAt(once, source, k) != Null)
    ensures Merged(Object(once), Object(source)) == Object(once)
       <==> forall k :: k in source && k in once ==> MergedAt(once, source, k) == once[k]
  {
    MergedMembers(once, source);
    var merged := Merged(Object(once), Object(source));
    hide Merged, MergedAt, Stripped;
    forall k ensures k in merged.members <==> k in once {
    }
    SameMap(merged.members, once);
    assert merged == Object(merged.members);
  }

  lemma SameMap(a: Members, b: Members)
    requires forall k :: k in a <==> k in b
    ensures a == b <==> forall k :: k in a ==> a[k] == b[k]
  {
  }

  lemma {:induction false} MergedTwice(dest: Json, source: Json)
    requires NullFree(dest)
    ensures var once := Stripped(Merged(dest, source));
      once == Null || Stripped(Merged(once, source)) == once <==> NullsMeet(dest, source)
    decreases source
  {
    var once := Stripped(Merged(dest, source));
    if !dest.Object? {
      if source != Null {
        AddedTwice(source);
      }
    } else if !source.Object? {
      NullFreeIsStripped(dest);
    } else {
      var d, s := dest.members, source.members;
      MergedMembers(d, s);
      NullFreeIsStripped(dest);
      NothingToStrip(dest, source);
      NothingToStrip(once, source);
      var m := once.members;
      hide Merged, MergedAt, Stripped, NullFree, NullsMeet;
      forall k | k in s
        ensures k in m <==> MergedAt(m, s, k) != Null
        ensures (k in m ==> MergedAt(m, s, k) == m[k]) <==> MeetAt(d, s, k)
      {
        SecondMerge(d, s, k, m);
        if k in d {
          NullFreeMember(dest, k);
          MergedTwice(d[k], s[k]);
        } else if s[k] != Null {
          AddedTwice(s[k]);
        } else {
          NullIsOnTop();
        }
      }
      SameAgain(m, s);
      MeetKeys(d, s);
    }
  }

  lemma NullFreeMember(v: Json, k: string)
    requires NullFree(v) && v.Object? && k in v.members
    ensures NullFree(v.members[k])
  {
  }

  lemma NullIsOnTop()
    ensures NullsOnTop(Null) && Stripped(Null) == Null
  {
  }

  lemma MeetKeys(dest: Members, source: Members)
    ensures NullsMeet(Object(dest), Object(source)) <==> forall k :: k in source ==> MeetAt(dest, source, k)
  {
  }

  /** For a null-free destination the merged configuration is null-free, and merging the same
      source again changes nothing, exactly when the nulls of the source meet it. */
  lemma MergeIsCleanAndIdempotent(dest: Json, source: Json)
    requires dest.Object? && NullFree(dest)
    ensures NullFree(Merged(dest, source)) <==> NullsMeet(dest, source)
    ensures Merged(Merged(dest, source), source) == Merged(dest, source) <==> NullsMeet(dest, source)
  {
    hide Merged, Stripped, NullsMeet;
    MergedNullFree(dest, source);
    MergedTwice(dest, source);
    NullFreeIsStripped(dest);
    NothingToStrip(dest, source);
    NothingToStrip(Merged(dest, source), source);
  }

  /** A null-free source always meets its destination. */
  lemma {:induction false} NullFreeMeets(dest: Json, source: Json)
    requires NullFree(source)
    ensures NullsMeet(dest, source)
    decreases source
  {
    if dest.Object? && source.Object? {
      forall k | k in source.members && k in dest.members
        ensures NullsMeet(dest.members[k], source.members[k])
      {
        NullFreeMeets(dest.members[k], source.members[k]);
      }
    }
  }

  /** A null two levels inside a new object stays in the merged configuration. */
  lemma DeepNullSurvives()
    ensures var source := Object(map["a" := Object(map["b" := Object(map["c" := Null])])]);
      !NullFree(Merged(Object(map[]), source))
  {
    var inner := Object(map["c" := Null]);
    var source := Object(map["a" := Object(map["b" := inner])]);
    assert !NullFree(inner) by { assert "c" in inner.members; }
    assert !NullsOnTop(source.members["a"]) by { assert "b" in source.members["a"].members; }
    assert !NullsMeet(Object(map[]), source) by { assert "a" in source.members; }
    MergeIsCleanAndIdempotent(Object(map[]), source);
  }
}
