/** What cleaning a path and following a link text do, as laws on whole strings.
    The laws determine the cleaner: no other function has them. */
module PathLaws {
  import opened Common
  import opened Paths

  /** A path made of these names. */
  function Spelled(segs: seq<string>): string {
    if segs == [] then "/" else Rooted(segs)
  }

  // ------------------------------------------------- segments of a longer path

  lemma {:induction false} SegmentsConcat(p: string, q: string)
    ensures Segments(p + "/" + q) == Segments(p) + Segments(q)
    decreases |p|
  {
    var s := p + "/" + q;
    if p == [] {
      assert s[1..] == q;
    } else {
      assert s[1..] == p[1..] + "/" + q;
      SegmentsConcat(p[1..], q);
      SegmentsWhat(p[1..], '/');
    }
  }

  lemma {:induction false} ReduceConcat(a: seq<string>, b: seq<string>, done: seq<string>)
    ensures Reduce(a + b, done) == Reduce(b, Reduce(a, done))
    decreases |a|
  {
    if a == [] {
      assert a + b == b;
    } else {
      assert (a + b)[1..] == a[1..] + b;
      ReduceConcat(a[1..], b, done);
      ReduceConcat(a[1..], b, if done == [] then [] else done[..|done| - 1]);
      ReduceConcat(a[1..], b, done + [a[0]]);
    }
  }

  lemma SegmentsOne(x: string)
    requires '/' !in x
    ensures Segments(x) == [x]
  {
    SegmentsOfRooted([], x);
    assert x + Rooted([]) == x;
  }

  lemma {:induction false} RootedSnoc(ds: seq<string>, n: string)
    ensures Rooted(ds + [n]) == Rooted(ds) + "/" + n
  {
    if ds == [] {
      assert [n][1..] == [];
      assert Rooted([n]) == "/" + n + "";
    } else {
      assert (ds + [n])[1..] == ds[1..] + [n];
      RootedSnoc(ds[1..], n);
    }
  }

  lemma {:induction false} RootedConcat(a: seq<string>, b: seq<string>)
    ensures Rooted(a + b) == Rooted(a) + Rooted(b)
  {
    if a == [] {
      assert a + b == b;
    } else {
      assert (a + b)[1..] == a[1..] + b;
      RootedConcat(a[1..], b);
    }
  }

  /** Names reduce to themselves. */
  lemma ReduceSpelled(ds: seq<string>)
    requires AllPlain(ds)
    ensures Reduce(Segments(Spelled(ds)), []) == ds && Reduce(Segments(Rooted(ds)), []) == ds
  {
    assert Segments("") == [""];
    assert Reduce([""], []) == [];
    if ds == [] {
      assert Segments("/") == ["", ""];
      assert Reduce(["", ""], []) == [];
    } else {
      SegmentsOfRooted(ds, "");
      assert "" + Rooted(ds) == Rooted(ds);
      ReducePlain(ds, []);
      ReduceConcat([""], ds, []);
      assert [] + ds == ds;
    }
  }

  // -------------------------------------------------------------- the cleaner

  lemma CleanIs(p: string)
    ensures Clean(p) == Spelled(Reduce(Segments(p), []))
  {
  }

  lemma SlashedConcat(p: string, q: string)
    ensures Slashed(p + q) == Slashed(p) + Slashed(q)
  {
  }

  lemma SlashedSame(p: string)
    requires '\\' !in p
    ensures Slashed(p) == p
  {
  }

  lemma CleanPathIs(p: string)
    ensures CleanPath(p) == Spelled(Reduce(Segments(Slashed(p)), []))
  {
    var s := Slashed(p);
    if s == "" || s[0] != '/' {
      assert "/" + s == "" + "/" + s;
      SegmentsConcat("", s);
      ReduceConcat([""], Segments(s), []);
      assert Reduce([""], []) == [];
    }
  }

  /** A path in three parts cleans name by name. */
  lemma CleanParts(p: string, m: string, q: string)
    requires '\\' !in m
    ensures CleanPath(p + "/" + m + "/" + q) ==
            Spelled(Reduce(Segments(Slashed(q)), Reduce(Segments(m), Reduce(Segments(Slashed(p)), []))))
  {
    var a, b := Slashed(p), Slashed(q);
    SlashedConcat(p + "/" + m + "/", q);
    SlashedConcat(p + "/" + m, "/");
    SlashedConcat(p + "/", m);
    SlashedConcat(p, "/");
    SlashedSame(m);
    SlashedSame("/");
    assert Slashed(p + "/" + m + "/" + q) == (a + "/" + m) + "/" + b;
    SegmentsConcat(a + "/" + m, b);
    SegmentsConcat(a, m);
    CleanPathIs(p + "/" + m + "/" + q);
    ReduceConcat(Segments(a) + Segments(m), Segments(b), []);
    ReduceConcat(Segments(a), Segments(m), []);
  }

  lemma CleanTwoParts(p: string, q: string)
    ensures CleanPath(p + "/" + q) == Spelled(Reduce(Segments(Slashed(q)), Reduce(Segments(Slashed(p)), [])))
    ensures CleanPath(p + "\\" + q) == CleanPath(p + "/" + q)
  {
    var a, b := Slashed(p), Slashed(q);
    SlashedConcat(p + "/", q);
    SlashedConcat(p, "/");
    SlashedConcat(p + "\\", q);
    SlashedConcat(p, "\\");
    assert Slashed("\\") == "/" && Slashed("/") == "/";
    assert Slashed(p + "/" + q) == Slashed(p + "\\" + q) == a + "/" + b;
    SegmentsConcat(a, b);
    CleanPathIs(p + "/" + q);
    CleanPathIs(p + "\\" + q);
    ReduceConcat(Segments(a), Segments(b), []);
  }

  /** ".." takes the name before it away. */
  lemma ParentGoes(p: string, x: string, q: string)
    requires Plain(x) && '\\' !in x
    ensures CleanPath(p + "/" + x + "/../" + q) == CleanPath(p + "/" + q)
  {
    var m := x + "/..";
    assert p + "/" + x + "/../" + q == p + "/" + m + "/" + q;
    CleanParts(p, m, q);
    CleanTwoParts(p, q);
    assert m == x + "/" + "..";
    SegmentsConcat(x, "..");
    SegmentsOne(x);
    SegmentsOne("..");
    var d := Reduce(Segments(Slashed(p)), []);
    ReduceConcat([x], [".."], d);
    assert Reduce([x], d) == d + [x];
    assert (d + [x])[..|d|] == d;
  }

  /** And nothing at the root. */
  lemma RootHasNoParent(q: string)
    ensures CleanPath("/../" + q) == CleanPath("/" + q)
  {
    assert "/../" + q == "" + "/" + ".." + "/" + q && "/" + q == "" + "/" + q;
    CleanParts("", "..", q);
    CleanTwoParts("", q);
    SegmentsOne("..");
    assert Slashed("") == "" && Segments("") == [""];
    assert Reduce([""], []) == [] && Reduce([".."], []) == [];
  }

  /** "." and a repeated slash are nothing at all. */
  lemma NothingBetween(p: string, q: string)
    ensures CleanPath(p + "/./" + q) == CleanPath(p + "//" + q) == CleanPath(p + "/" + q)
  {
    assert p + "/./" + q == p + "/" + "." + "/" + q && p + "//" + q == p + "/" + "" + "/" + q;
    CleanParts(p, ".", q);
    CleanParts(p, "", q);
    CleanTwoParts(p, q);
    SegmentsOne(".");
    SegmentsOne("");
    var d := Reduce(Segments(Slashed(p)), []);
    assert Reduce(["."], d) == d && Reduce([""], d) == d;
  }

  /** So are a leading slash that is missing, and one at the end. */
  lemma SlashesAround(p: string)
    ensures CleanPath("/" + p) == CleanPath(p) == CleanPath(p + "/")
  {
    assert "/" + p == "" + "/" + p && p + "/" == p + "/" + "";
    CleanTwoParts("", p);
    CleanTwoParts(p, "");
    CleanPathIs(p);
    assert Slashed("") == "" && Segments("") == [""];
    assert Reduce([""], []) == [];
    var d := Reduce(Segments(Slashed(p)), []);
    assert Reduce([""], d) == d;
  }

  /** A backslash is a slash. */
  lemma BackslashIsSlash(p: string, q: string)
    ensures CleanPath(p + "\\" + q) == CleanPath(p + "/" + q)
  {
    CleanTwoParts(p, q);
  }

  /** A path made of plain names stays as it is. */
  lemma PlainStays(segs: seq<string>)
    requires AllPlain(segs) && NoneHas(segs, '\\')
    ensures CleanPath(Spelled(segs)) == Spelled(segs)
  {
    RootedNoBackslash(segs);
    SlashedSame(Spelled(segs));
    CleanPathIs(Spelled(segs));
    ReduceSpelled(segs);
  }

  // ----------------------------------------------- nothing else has these laws

  ghost predicate DropsParent(f: string -> string, p: string, x: string, q: string) {
    Plain(x) && '\\' !in x ==> f(p + "/" + x + "/../" + q) == f(p + "/" + q)
  }

  ghost predicate DropsNothing(f: string -> string, p: string, q: string) {
    && f(p + "/./" + q) == f(p + "/" + q) && f(p + "//" + q) == f(p + "/" + q)
    && f(p + "\\" + q) == f(p + "/" + q)
  }

  ghost predicate DropsSlashes(f: string -> string, p: string) {
    f("/" + p) == f(p) && f(p + "/") == f(p) && f("/../" + p) == f("/" + p)
  }

  ghost predicate KeepsPlain(f: string -> string, segs: seq<string>) {
    AllPlain(segs) && NoneHas(segs, '\\') ==> f(Spelled(segs)) == Spelled(segs)
  }

  ghost predicate Cleans(f: string -> string) {
    && (forall p, x, q :: DropsParent(f, p, x, q))
    && (forall p, q :: DropsNothing(f, p, q))
    && (forall p :: DropsSlashes(f, p))
    && (forall segs :: KeepsPlain(f, segs))
  }

  lemma CleanPathCleans()
    ensures Cleans(CleanPath)
  {
    forall p, x, q
      ensures DropsParent(CleanPath, p, x, q)
    {
      if Plain(x) && '\\' !in x {
        ParentGoes(p, x, q);
      }
    }
    forall p, q
      ensures DropsNothing(CleanPath, p, q)
    {
      NothingBetween(p, q);
      BackslashIsSlash(p, q);
    }
    forall p
      ensures DropsSlashes(CleanPath, p)
    {
      SlashesAround(p);
      RootHasNoParent(p);
    }
    forall segs
      ensures KeepsPlain(CleanPath, segs)
    {
      if AllPlain(segs) && NoneHas(segs, '\\') {
        PlainStays(segs);
      }
    }
  }

  lemma OneMore(x: char, a: string, b: string, c: string)
    requires "/" + a + b == "/" + c
    ensures "/" + ([x] + a) + b == "/" + ([x] + c)
  {
    assert c == ("/" + c)[1..] == ("/" + a + b)[1..] == a + b;
    assert "/" + ([x] + a) + b == "/" + ([x] + (a + b));
  }

  lemma {:induction false} RootedSegments(s: string)
    ensures Rooted(Segments(s)) == "/" + s
    decreases |s|
  {
    if s == [] {
      assert Rooted([""]) == "/" + "" + Rooted([""][1..]);
    } else {
      var rest := Segments(s[1..]);
      RootedSegments(s[1..]);
      SegmentsWhat(s[1..], '/');
      assert s == [s[0]] + s[1..];
      if s[0] == '/' {
        assert ([""] + rest)[1..] == rest;
      } else {
        OneMore(s[0], rest[0], Rooted(rest[1..]), s[1..]);
        assert ([[s[0]] + rest[0]] + rest[1..])[1..] == rest[1..];
      }
    }
  }

  lemma {:induction false} TurnsBackslashes(f: string -> string, p: string, i: nat)
    requires Cleans(f) && i <= |p|
    ensures f(Slashed(p[..i]) + p[i..]) == f(p)
  {
    if i == 0 {
      assert Slashed(p[..0]) + p[0..] == p;
    } else {
      var a, q := Slashed(p[..i - 1]), p[i..];
      TurnsBackslashes(f, p, i - 1);
      assert p[..i] == p[..i - 1] + [p[i - 1]] && p[i - 1..] == [p[i - 1]] + q;
      SlashedConcat(p[..i - 1], [p[i - 1]]);
      if p[i - 1] == '\\' {
        assert DropsNothing(f, a, q);
        assert Slashed(p[..i]) + q == a + "/" + q && a + p[i - 1..] == a + "\\" + q;
      } else {
        assert Slashed(p[..i]) + q == a + p[i - 1..];
      }
    }
  }

  /** A path goes on with nothing, or with a slash. */
  lemma GoesOn(r: string, rest: seq<string>) returns (t: string)
    ensures if rest == [] then t == "" && r + Rooted(rest) == r else Rooted(rest) == "/" + t && r + Rooted(rest) == r + "/" + t
  {
    t := if rest == [] then "" else rest[0] + Rooted(rest[1..]);
    if rest != [] {
      assert "/" + rest[0] + Rooted(rest[1..]) == "/" + t;
    }
  }

  lemma SkipsEmpty(f: string -> string, r: string, rest: seq<string>)
    requires Cleans(f)
    ensures f(r + "/" + Rooted(rest)) == f(r + Rooted(rest))
  {
    var t := GoesOn(r, rest);
    if rest == [] {
      assert r + "/" + Rooted(rest) == r + "/";
      assert DropsSlashes(f, r);
    } else {
      assert r + "/" + Rooted(rest) == r + "//" + t;
      assert DropsNothing(f, r, t);
    }
  }

  lemma SkipsDot(f: string -> string, r: string, rest: seq<string>)
    requires Cleans(f)
    ensures f(r + "/." + Rooted(rest)) == f(r + Rooted(rest))
  {
    var t := GoesOn(r, rest);
    if rest == [] {
      assert r + "/." + Rooted(rest) == r + "/.";
      assert r + "/." + "/" == r + "/./" + "" && r + "/" + "" == r + "/";
      assert DropsSlashes(f, r) && DropsSlashes(f, r + "/.") && DropsNothing(f, r, "");
    } else {
      assert r + "/." + Rooted(rest) == r + "/./" + t;
      assert DropsNothing(f, r, t);
    }
  }

  lemma EndsInParent(f: string -> string, d: string, x: string)
    requires Cleans(f) && Plain(x) && '\\' !in x
    ensures f(d + "/" + x + "/..") == f(d)
  {
    var s := d + "/" + x + "/..";
    assert DropsSlashes(f, s) && DropsSlashes(f, d) && DropsParent(f, d, x, "");
    assert s + "/" == d + "/" + x + "/../" + "" && d + "/" + "" == d + "/";
  }

  lemma SkipsParent(f: string -> string, d: string, x: string, rest: seq<string>)
    requires Cleans(f) && Plain(x) && '\\' !in x
    ensures f(d + "/" + x + "/.." + Rooted(rest)) == f(d + Rooted(rest))
  {
    hide Plain, Rooted;
    var t := GoesOn(d, rest);
    var s := d + "/" + x + "/..";
    if rest == [] {
      assert s + Rooted(rest) == s by {
        var u := GoesOn(s, rest);
      }
      EndsInParent(f, d, x);
    } else {
      assert DropsParent(f, d, x, t);
      assert s + Rooted(rest) == d + "/" + x + "/../" + t;
    }
  }

  lemma SkipsAtRoot(f: string -> string, rest: seq<string>)
    requires Cleans(f)
    ensures f("/" + ".." + Rooted(rest)) == f(Rooted(rest))
  {
    if rest == [] {
      assert "/" + ".." + Rooted(rest) == "/.." && "/.." + "/" == "/../" + "" && "/" + "" == "" + "/";
      assert DropsSlashes(f, "/..") && DropsSlashes(f, "");
    } else {
      var t := rest[0] + Rooted(rest[1..]);
      assert Rooted(rest) == "/" + t && "/" + ".." + Rooted(rest) == "/../" + t;
      assert DropsSlashes(f, t);
    }
  }

  lemma {:induction false} Follows(f: string -> string, done: seq<string>, segs: seq<string>)
    requires Cleans(f) && AllPlain(done) && NoneHas(done, '\\') && NoneHas(segs, '/') && NoneHas(segs, '\\')
    ensures f(Rooted(done) + Rooted(segs)) == Spelled(Reduce(segs, done))
    decreases |segs|
  {
    var r := Rooted(done);
    if segs == [] {
      assert r + Rooted(segs) == r && KeepsPlain(f, done);
      assert "/" + "" == "/" && DropsSlashes(f, "");
    } else {
      var seg, rest := segs[0], segs[1..];
      assert r + Rooted(segs) == r + "/" + seg + Rooted(rest);
      if seg == "" {
        assert r + "/" + seg + Rooted(rest) == r + "/" + Rooted(rest);
        SkipsEmpty(f, r, rest);
        Follows(f, done, rest);
      } else if seg == "." {
        assert r + "/" + seg + Rooted(rest) == r + "/." + Rooted(rest);
        SkipsDot(f, r, rest);
        Follows(f, done, rest);
      } else if seg == ".." && done == [] {
        assert r + "/" + seg + Rooted(rest) == "/" + ".." + Rooted(rest) && r + Rooted(rest) == Rooted(rest);
        SkipsAtRoot(f, rest);
        Follows(f, done, rest);
      } else if seg == ".." {
        var d, x := done[..|done| - 1], done[|done| - 1];
        assert done == d + [x];
        RootedSnoc(d, x);
        assert r + "/" + seg + Rooted(rest) == Rooted(d) + "/" + x + "/.." + Rooted(rest);
        SkipsParent(f, Rooted(d), x, rest);
        Follows(f, d, rest);
      } else {
        RootedSnoc(done, seg);
        assert r + "/" + seg + Rooted(rest) == Rooted(done + [seg]) + Rooted(rest);
        Follows(f, done + [seg], rest);
      }
    }
  }

  /** Whatever has these laws is the cleaner. */
  lemma OnlyCleanPathCleans(f: string -> string, p: string)
    requires Cleans(f)
    ensures f(p) == CleanPath(p)
  {
    var s := Slashed(p);
    TurnsBackslashes(f, p, |p|);
    assert p[..|p|] == p && s + p[|p|..] == s;
    RootedSegments(s);
    SegmentsWhat(s, '\\');
    Follows(f, [], Segments(s));
    assert "" + Rooted(Segments(s)) == "/" + s;
    assert DropsSlashes(f, s);
    CleanPathIs(p);
  }

  // ------------------------------------------------------------------ symlinks

  lemma {:induction false} UpToLast(d: string, n: string)
    requires '/' !in n
    ensures UpToSlash(d + "/" + n) == d + "/"
    decreases |n|
  {
    var p := d + "/" + n;
    if n == "" {
      assert p == d + "/";
    } else {
      assert p[..|p| - 1] == d + "/" + n[..|n| - 1];
      assert p[|p| - 1] == n[|n| - 1] && n[|n| - 1] in n;
      UpToLast(d, n[..|n| - 1]);
    }
  }

  lemma DirOf(ds: seq<string>, n: string)
    requires AllPlain(ds) && Plain(n)
    ensures Dir(Rooted(ds + [n])) == Spelled(ds)
  {
    var d := Rooted(ds);
    RootedSnoc(ds, n);
    UpToLast(d, n);
    CleanIs(d + "/");
    assert d + "/" == d + "/" + "";
    SegmentsConcat(d, "");
    ReduceConcat(Segments(d), [""], []);
    ReduceSpelled(ds);
    assert Reduce([""], ds) == ds;
  }

  /** A relative target starts from the directory of the link. */
  lemma RelativeTarget(ds: seq<string>, n: string, target: string)
    requires AllPlain(ds) && Plain(n) && (target == "" || target[0] != '/')
    ensures LinkTarget(Rooted(ds + [n]), target) == Spelled(Reduce(Segments(target), ds))
    ensures LinkTarget(Rooted(ds + [n]), target) == Clean(Rooted(ds) + "/" + target)
    ensures '\\' !in target && NoneHas(ds, '\\') ==>
              LinkTarget(Rooted(ds + [n]), target) == CleanPath(Rooted(ds) + "/" + target)
  {
    DirOf(ds, n);
    ReduceSpelled(ds);
    SegmentsConcat(Rooted(ds), target);
    ReduceConcat(Segments(Rooted(ds)), Segments(target), []);
    CleanIs(Rooted(ds) + "/" + target);
    SegmentsConcat(Spelled(ds), target);
    ReduceConcat(Segments(Spelled(ds)), Segments(target), []);
    if target == "" {
      CleanIs(Spelled(ds));
      assert Reduce([""], ds) == ds;
    } else {
      CleanIs(Spelled(ds) + "/" + target);
    }
    if '\\' !in target && NoneHas(ds, '\\') {
      RootedNoBackslash(ds);
      SlashedSame(Rooted(ds) + "/" + target);
      CleanPathIs(Rooted(ds) + "/" + target);
    }
  }

  /** An absolute one starts from the root. */
  lemma AbsoluteTarget(p: string, target: string)
    requires target != "" && target[0] == '/'
    ensures LinkTarget(p, target) == Clean(target)
    ensures '\\' !in target ==> LinkTarget(p, target) == CleanPath(target)
  {
    if '\\' !in target {
      SlashedSame(target);
    }
  }

  lemma WithoutSlash(ts: seq<string>)
    requires AllPlain(ts) && ts != []
    ensures var t := Rooted(ts)[1..]; t != "" && t[0] != '/' && Segments(t) == ts
  {
    hide Segments;
    var t := ts[0] + Rooted(ts[1..]);
    assert Rooted(ts) == "/" + t;
    assert t[0] == ts[0][0] && ts[0][0] in ts[0];
    SegmentsOfRooted(ts[1..], ts[0]);
    assert ts == [ts[0]] + ts[1..];
  }

  /** The link at ds/n with target ts leads to ds/ts. */
  lemma LinkToSibling(ds: seq<string>, n: string, ts: seq<string>)
    requires AllPlain(ds) && Plain(n) && AllPlain(ts) && ts != []
    ensures LinkTarget(Rooted(ds + [n]), Rooted(ts)[1..]) == Rooted(ds + ts)
  {
    hide LinkTarget, Reduce, Segments, Clean, CleanPath;
    WithoutSlash(ts);
    RelativeTarget(ds, n, Rooted(ts)[1..]);
    ReducePlain(ts, ds);
  }

  /** With target ../ts the link at ds/d/n leads to ds/ts. */
  lemma LinkToParent(ds: seq<string>, d: string, n: string, ts: seq<string>)
    requires AllPlain(ds) && Plain(d) && Plain(n) && AllPlain(ts)
    ensures LinkTarget(Rooted(ds + [d, n]), ".." + Rooted(ts)) == Spelled(ds + ts)
  {
    hide LinkTarget, Segments, Clean, CleanPath;
    var t := ".." + Rooted(ts);
    assert ds + [d, n] == (ds + [d]) + [n];
    RelativeTarget(ds + [d], n, t);
    SegmentsOfRooted(ts, "..");
    assert ([".."] + ts)[1..] == ts && (ds + [d])[..|ds|] == ds;
    ReducePlain(ts, ds);
  }

  /** With an absolute target of plain names it leads there. */
  lemma LinkFromRoot(p: string, ts: seq<string>)
    requires AllPlain(ts)
    ensures LinkTarget(p, Spelled(ts)) == Spelled(ts)
  {
    AbsoluteTarget(p, Spelled(ts));
    CleanIs(Spelled(ts));
    ReduceSpelled(ts);
  }

  // ---------------------------------------------------------------------- keys

  /** The key of a path is the prefix, if there is one, and the path's names. */
  lemma KeyIs(prefix: string, segs: seq<string>)
    requires AllPlain(segs) && NoneHas(segs, '\\') && segs != []
    ensures Key(prefix, Rooted(segs)) == if prefix == "" then Rooted(segs)[1..] else prefix + Rooted(segs)
    ensures ListPrefix(prefix, Rooted(segs)) == if prefix == "" then Rooted(segs)[1..] + "/" else prefix + Rooted(segs) + "/"
  {
    PlainStays(segs);
    RootedEnds(segs);
    var rel := Rooted(segs)[1..];
    assert Rooted(segs) == "/" + rel;
    assert prefix + "/" + rel == prefix + ("/" + rel);
  }

  lemma KeyOfRoot(prefix: string)
    ensures Key(prefix, "/") == prefix && ListPrefix(prefix, "/") == if prefix == "" then "" else prefix + "/"
  {
    PlainStays([]);
  }

  /** However the path is written. */
  lemma KeyOfAny(prefix: string, p: string)
    ensures Key(prefix, p) == Key(prefix, CleanPath(p)) && ListPrefix(prefix, p) == ListPrefix(prefix, CleanPath(p))
    ensures prefix <= Key(prefix, p) && prefix <= ListPrefix(prefix, p)
  {
    CleanPathIdempotent(p);
  }
}
