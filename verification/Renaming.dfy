/** Moving a directory as a transformation of the bucket (s3fs.go, Rename): every
    listed key is copied below the new prefix, then every listed key is deleted. */
module Renaming {
  import opened Common
  import opened Bucket
  import opened Paths

  /** newPrefix + strings.TrimPrefix(k, oldPrefix). */
  function Moved(k: string, src: string, dst: string): string
    requires src <= k
  {
    dst + k[|src|..]
  }

  /** The old prefix is replaced, and nothing else. */
  lemma MovedIs(rest: string, src: string, dst: string)
    ensures src <= src + rest && Moved(src + rest, src, dst) == dst + rest
  {
  }

  predicate AllUnder(keys: seq<string>, src: string) {
    forall i :: 0 <= i < |keys| ==> src <= keys[i]
  }

  /** The store after the first n copies succeeded. */
  function Copied(s: Store, keys: seq<string>, n: nat, src: string, dst: string): Store
    requires n <= |keys| && AllUnder(keys, src)
  {
    if n == 0 then s
    else
      var t := Copied(s, keys, n - 1, src, dst);
      var k := keys[n - 1];
      if k in t then t[Moved(k, src, dst) := t[k]] else t
  }

  /** The store after the first n deletes. */
  function Deleted(s: Store, keys: seq<string>, n: nat): Store
    requires n <= |keys|
  {
    s - set i | 0 <= i < n :: keys[i]
  }

  /** What a directory move should leave: nothing below the old prefix that was
      there, each of those bodies at its new key, everything else untouched. */
  ghost predicate IsMoved(s: Store, t: Store, src: string, dst: string) {
    && (forall k :: k in s && src <= k ==> Moved(k, src, dst) in t && t[Moved(k, src, dst)] == s[k])
    && (forall k :: k in t ==>
          (k in s && !(src <= k)) || (exists o :: o in s && src <= o && Moved(o, src, dst) == k))
    && (forall k :: k in s && !(src <= k) && (forall o :: o in s && src <= o ==> Moved(o, src, dst) != k)
          ==> k in t && t[k] == s[k])
  }

  /** No object to move would land on another object to move. */
  ghost predicate NoCollision(s: Store, src: string, dst: string) {
    forall k :: k in s && src <= k ==> !(src <= Moved(k, src, dst) && Moved(k, src, dst) in s)
  }

  lemma MovedInjective(j: string, k: string, src: string, dst: string)
    requires src <= j && src <= k && Moved(j, src, dst) == Moved(k, src, dst)
    ensures j == k
  {
    var a, b := Moved(j, src, dst), Moved(k, src, dst);
    assert a[|dst|..] == j[|src|..] && b[|dst|..] == k[|src|..];
    assert j == src + j[|src|..] && k == src + k[|src|..];
  }

  predicate PlacedAt(s: Store, t: Store, k: string, src: string, dst: string)
    requires src <= k && k in s
  {
    Moved(k, src, dst) in t && t[Moved(k, src, dst)] == s[k]
  }

  predicate SameAt(s: Store, t: Store, k: string) {
    (k in t <==> k in s) && (k in s ==> t[k] == s[k])
  }

  predicate IsTarget(keys: seq<string>, n: nat, k: string, src: string, dst: string)
    requires n <= |keys| && AllUnder(keys, src)
  {
    exists i :: 0 <= i < n && Moved(keys[i], src, dst) == k
  }

  lemma ListingUnder(s: Store, keys: seq<string>, src: string)
    requires IsListing(s, src, keys)
    ensures AllUnder(keys, src)
    ensures forall i :: 0 <= i < |keys| ==> keys[i] in s
  {
    assert forall i :: 0 <= i < |keys| ==> keys[i] in keys;
  }

  /** n copies touch nothing but the first n targets. */
  lemma {:induction false} CopiesElsewhere(s: Store, keys: seq<string>, n: nat, src: string, dst: string, k: string)
    requires n <= |keys| && IsListing(s, src, keys)
    ensures AllUnder(keys, src)
    ensures !IsTarget(keys, n, k, src, dst) ==> SameAt(s, Copied(s, keys, n, src, dst), k)
  {
    ListingUnder(s, keys, src);
    if n > 0 && !IsTarget(keys, n, k, src, dst) {
      CopiesElsewhere(s, keys, n - 1, src, dst, k);
    }
  }

  /** With no collision, n copies put the first n bodies in place. */
  lemma {:induction false} CopiesPlaced(s: Store, keys: seq<string>, n: nat, src: string, dst: string, i: nat)
    requires i < n <= |keys| && IsListing(s, src, keys) && NoCollision(s, src, dst)
    ensures AllUnder(keys, src) && keys[i] in s
    ensures PlacedAt(s, Copied(s, keys, n, src, dst), keys[i], src, dst)
  {
    ListingUnder(s, keys, src);
    var k := keys[n - 1];
    if i < n - 1 {
      CopiesPlaced(s, keys, n - 1, src, dst, i);
      if Moved(keys[i], src, dst) == Moved(k, src, dst) {
        MovedInjective(keys[i], k, src, dst);
      }
    } else {
      CopiesElsewhere(s, keys, n - 1, src, dst, k);
      forall j | 0 <= j < n - 1
        ensures Moved(keys[j], src, dst) != k
      {
        assert keys[j] in s && k in s;
      }
    }
  }

  lemma CopiedWhat(s: Store, keys: seq<string>, n: nat, src: string, dst: string)
    requires n <= |keys| && IsListing(s, src, keys) && NoCollision(s, src, dst)
    ensures AllUnder(keys, src) && forall i :: 0 <= i < |keys| ==> keys[i] in s
    ensures forall i :: 0 <= i < n ==> PlacedAt(s, Copied(s, keys, n, src, dst), keys[i], src, dst)
    ensures forall k :: !IsTarget(keys, n, k, src, dst) ==> SameAt(s, Copied(s, keys, n, src, dst), k)
  {
    ListingUnder(s, keys, src);
    forall i | 0 <= i < n
      ensures PlacedAt(s, Copied(s, keys, n, src, dst), keys[i], src, dst)
    {
      CopiesPlaced(s, keys, n, src, dst, i);
    }
    forall k | !IsTarget(keys, n, k, src, dst)
      ensures SameAt(s, Copied(s, keys, n, src, dst), k)
    {
      CopiesElsewhere(s, keys, n, src, dst, k);
    }
  }

  /** Nothing is lost part-way: whatever prefix of the copy and delete steps ran,
      each original body is at its old key or at its new one. */
  lemma NothingLost(s: Store, keys: seq<string>, n: nat, m: nat, src: string, dst: string, k: string)
    requires n <= |keys| && m <= |keys| && (m > 0 ==> n == |keys|)
    requires IsListing(s, src, keys) && NoCollision(s, src, dst) && k in s && src <= k
    ensures AllUnder(keys, src)
    ensures var t := Deleted(Copied(s, keys, n, src, dst), keys, m);
            (k in t && t[k] == s[k]) || (Moved(k, src, dst) in t && t[Moved(k, src, dst)] == s[k])
  {
    CopiedWhat(s, keys, n, src, dst);
    assert k in keys;
    var i :| 0 <= i < |keys| && keys[i] == k;
    forall j | 0 <= j < |keys|
      ensures Moved(keys[j], src, dst) != k && Moved(k, src, dst) != keys[j]
    {
      assert keys[j] in s;
    }
    assert !IsTarget(keys, n, k, src, dst);
    if n == |keys| {
      assert PlacedAt(s, Copied(s, keys, n, src, dst), keys[i], src, dst);
    }
  }

  /** Part-way, keys outside both prefixes are as before. */
  lemma OthersUntouched(s: Store, keys: seq<string>, n: nat, m: nat, src: string, dst: string, k: string)
    requires n <= |keys| && m <= |keys|
    requires IsListing(s, src, keys) && !(src <= k) && !(dst <= k)
    ensures AllUnder(keys, src)
    ensures SameAt(s, Deleted(Copied(s, keys, n, src, dst), keys, m), k)
  {
    ListingUnder(s, keys, src);
    CopiesElsewhere(s, keys, n, src, dst, k);
    assert forall j :: 0 <= j < |keys| ==> dst <= Moved(keys[j], src, dst);
  }

  /** The whole move is right if and only if no object lands on another one that
      is being moved. */
  lemma MoveIsRight(s: Store, keys: seq<string>, src: string, dst: string)
    requires IsListing(s, src, keys)
    ensures AllUnder(keys, src)
    ensures var t := Deleted(Copied(s, keys, |keys|, src, dst), keys, |keys|);
            IsMoved(s, t, src, dst) <==> NoCollision(s, src, dst)
  {
    forall j | 0 <= j < |keys|
      ensures src <= keys[j] && keys[j] in s
    {
      assert keys[j] in keys;
    }
    if NoCollision(s, src, dst) {
      MoveWhenApart(s, keys, src, dst);
    } else {
      var k :| k in s && src <= k && src <= Moved(k, src, dst) && Moved(k, src, dst) in s;
      var j :| 0 <= j < |keys| && keys[j] == Moved(k, src, dst);
    }
  }

  lemma MoveWhenApart(s: Store, keys: seq<string>, src: string, dst: string)
    requires IsListing(s, src, keys) && NoCollision(s, src, dst)
    ensures AllUnder(keys, src)
    ensures IsMoved(s, Deleted(Copied(s, keys, |keys|, src, dst), keys, |keys|), src, dst)
  {
    CopiedWhat(s, keys, |keys|, src, dst);
    var c := Copied(s, keys, |keys|, src, dst);
    var t := Deleted(c, keys, |keys|);
    forall k | k in s && src <= k
      ensures Moved(k, src, dst) in t && t[Moved(k, src, dst)] == s[k]
    {
      assert k in keys;
      var i :| 0 <= i < |keys| && keys[i] == k;
      assert PlacedAt(s, c, keys[i], src, dst);
      assert forall j :: 0 <= j < |keys| ==> keys[j] in keys;
    }
    forall k | k in t && !IsTarget(keys, |keys|, k, src, dst)
      ensures k in s && !(src <= k)
    {
      assert SameAt(s, c, k);
    }
    forall k | k in t && IsTarget(keys, |keys|, k, src, dst)
      ensures exists o :: o in s && src <= o && Moved(o, src, dst) == k
    {
      var i :| 0 <= i < |keys| && Moved(keys[i], src, dst) == k;
      assert keys[i] in s;
    }
    forall k | k in s && !(src <= k) && (forall o :: o in s && src <= o ==> Moved(o, src, dst) != k)
      ensures k in t && t[k] == s[k]
    {
      assert forall i :: 0 <= i < |keys| ==> keys[i] in s && keys[i] in keys;
      assert !IsTarget(keys, |keys|, k, src, dst);
      assert SameAt(s, c, k);
    }
  }

  /** Paths neither of which lies below the other never collide. */
  lemma UnrelatedNeverCollide(s: Store, src: string, dst: string)
    requires !(src <= dst) && !(dst <= src)
    ensures NoCollision(s, src, dst)
  {
    forall k | k in s && src <= k
      ensures !(src <= Moved(k, src, dst))
    {
      PrefixesNest(src, dst, Moved(k, src, dst));
    }
  }

  lemma PrefixesNest(a: string, b: string, k: string)
    requires b <= k
    ensures a <= k ==> a <= b || b <= a
  {
  }

  /** Moving a directory onto its own parent is accepted and can collide: /a/b with
      the files x and b/x, moved to /a, ends with the body of b/x at a/x and
      without a/b/x. */
  lemma OntoParentCanLose()
    ensures var x, y := Object([1], Meta(None, None)), Object([2], Meta(None, None));
            var s: Store := map["a/b/x" := x, "a/b/b/x" := y];
            var keys := ["a/b/b/x", "a/b/x"];
            && IsListing(s, "a/b/", keys) && AllUnder(keys, "a/b/")
            && Deleted(Copied(s, keys, 2, "a/b/", "a/"), keys, 2) == map["a/x" := y]
  {
    var x, y := Object([1], Meta(None, None)), Object([2], Meta(None, None));
    var s: Store := map["a/b/x" := x, "a/b/b/x" := y];
    var keys := ["a/b/b/x", "a/b/x"];
    assert keys[0][|"a/b/"|..] == "b/x" && keys[1][|"a/b/"|..] == "x";
    assert Moved(keys[0], "a/b/", "a/") == "a/b/x" && Moved(keys[1], "a/b/", "a/") == "a/x";
    assert Copied(s, keys, 0, "a/b/", "a/") == s;
    assert Copied(s, keys, 1, "a/b/", "a/") == s["a/b/x" := y];
    assert Copied(s, keys, 2, "a/b/", "a/") == s["a/b/x" := y]["a/x" := y];
    assert (set i | 0 <= i < 2 :: keys[i]) == {keys[0], keys[1]};
  }

  // --------------------------------------------------- in terms of cleaned paths

  /** A completed directory rename between paths neither of which lies below the
      other is exactly the move. */
  lemma DirectoryRenameMoves(s: Store, keys: seq<string>, prefix: string, p: string, q: string)
    requires CleanPath(p) == p && CleanPath(q) == q && p != "/" && q != "/"
    requires !Below(p, q) && !Below(q, p)
    requires IsListing(s, ListPrefix(prefix, p), keys)
    ensures AllUnder(keys, ListPrefix(prefix, p))
    ensures var src, dst := ListPrefix(prefix, p), ListPrefix(prefix, q);
            IsMoved(s, Deleted(Copied(s, keys, |keys|, src, dst), keys, |keys|), src, dst)
  {
    BelowIsPrefix(prefix, p, q);
    BelowIsPrefix(prefix, q, p);
    UnrelatedNeverCollide(s, ListPrefix(prefix, p), ListPrefix(prefix, q));
    MoveIsRight(s, keys, ListPrefix(prefix, p), ListPrefix(prefix, q));
  }

  /** One that stopped after any number of steps has lost nothing, and has deleted
      nothing before every copy was made. */
  lemma DirectoryRenameLosesNothing(s: Store, keys: seq<string>, n: nat, m: nat, prefix: string, p: string, q: string, k: string)
    requires CleanPath(p) == p && CleanPath(q) == q && p != "/" && q != "/"
    requires !Below(p, q) && !Below(q, p)
    requires n <= |keys| && m <= |keys| && (m > 0 ==> n == |keys|)
    requires IsListing(s, ListPrefix(prefix, p), keys) && k in s
    ensures AllUnder(keys, ListPrefix(prefix, p))
    ensures var src, dst := ListPrefix(prefix, p), ListPrefix(prefix, q);
            var t := Deleted(Copied(s, keys, n, src, dst), keys, m);
            (k in t && t[k] == s[k])
            || (src <= k && Moved(k, src, dst) in t && t[Moved(k, src, dst)] == s[k])
            || (dst <= k && exists i :: 0 <= i < n && Moved(keys[i], src, dst) == k)
  {
    var src, dst := ListPrefix(prefix, p), ListPrefix(prefix, q);
    BelowIsPrefix(prefix, p, q);
    BelowIsPrefix(prefix, q, p);
    UnrelatedNeverCollide(s, src, dst);
    if src <= k {
      NothingLost(s, keys, n, m, src, dst, k);
    } else {
      ListingUnder(s, keys, src);
      CopiesElsewhere(s, keys, n, src, dst, k);
    }
  }

  /** A completed file rename: the object is at its new key and not at its old one. */
  lemma FileRenameMoves(s: Store, prefix: string, p: string, q: string)
    requires CleanPath(p) == p && CleanPath(q) == q && p != "/" && q != "/" && p != q
    requires Key(prefix, p) in s
    ensures var k, l := Key(prefix, p), Key(prefix, q);
            var t := s[l := s[k]] - {k};
            l in t && t[l] == s[k] && k !in t && forall j :: j != k && j != l ==> SameAt(s, t, j)
  {
    hide Key, CleanPath;
    if Key(prefix, p) == Key(prefix, q) {
      KeyInjective(prefix, p, q);
    }
  }
}
