/** Cleaned paths and object keys (s3fs.go, cleanPath, key and listPrefix). */
module Paths {
  import opened Common

  /** strings.Split(p, "/"). */
  function Segments(p: string): seq<string>
    decreases |p|
  {
    if p == [] then [""]
    else
      var rest := Segments(p[1..]);
      if p[0] == '/' then [""] + rest
      else if rest == [] then []
      else [[p[0]] + rest[0]] + rest[1..]
  }

  /** A name that stays as it is in a cleaned path. */
  predicate Plain(seg: string) {
    seg != "" && seg != "." && seg != ".." && '/' !in seg
  }

  predicate AllPlain(segs: seq<string>) {
    forall i :: 0 <= i < |segs| ==> Plain(segs[i])
  }

  predicate NoneHas(segs: seq<string>, c: char) {
    forall i :: 0 <= i < |segs| ==> c !in segs[i]
  }

  /** path.Clean on a rooted path, one segment at a time: empty and "." segments
      vanish, ".." drops the segment before it. */
  function Reduce(segs: seq<string>, done: seq<string>): seq<string> {
    if segs == [] then done
    else if segs[0] == "" || segs[0] == "." then Reduce(segs[1..], done)
    else if segs[0] == ".." then Reduce(segs[1..], if done == [] then [] else done[..|done| - 1])
    else Reduce(segs[1..], done + [segs[0]])
  }

  function Rooted(segs: seq<string>): string {
    if segs == [] then "" else "/" + segs[0] + Rooted(segs[1..])
  }

  lemma {:induction false} SegmentsWhat(p: string, c: char)
    ensures |Segments(p)| > 0 && NoneHas(Segments(p), '/')
    ensures c !in p ==> NoneHas(Segments(p), c)
    decreases |p|
  {
    if p != [] {
      SegmentsWhat(p[1..], c);
    }
  }

  lemma {:induction false} ReduceWhat(segs: seq<string>, done: seq<string>, c: char)
    requires AllPlain(done) && NoneHas(segs, '/')
    ensures AllPlain(Reduce(segs, done))
    ensures NoneHas(segs, c) && NoneHas(done, c) ==> NoneHas(Reduce(segs, done), c)
    decreases |segs|
  {
    if segs != [] {
      if segs[0] == "" || segs[0] == "." {
        ReduceWhat(segs[1..], done, c);
      } else if segs[0] == ".." {
        ReduceWhat(segs[1..], if done == [] then [] else done[..|done| - 1], c);
      } else {
        ReduceWhat(segs[1..], done + [segs[0]], c);
      }
    }
  }

  /** path.Clean of a path that starts with "/". */
  function Clean(p: string): (r: string)
    ensures r != "" && r[0] == '/'
    ensures r != "/" ==> r[|r| - 1] != '/'
  {
    var segs := Reduce(Segments(p), []);
    if segs == [] then "/"
    else
      SegmentsWhat(p, '/');
      ReduceWhat(Segments(p), [], '/');
      RootedEnds(segs);
      Rooted(segs)
  }

  lemma {:induction false} RootedEnds(segs: seq<string>)
    requires segs != [] && AllPlain(segs)
    ensures var r := Rooted(segs); |r| > 1 && r[0] == '/' && r[|r| - 1] != '/'
  {
    var last := segs[0][|segs[0]| - 1];
    assert last in segs[0];
    if |segs| > 1 {
      RootedEnds(segs[1..]);
    } else {
      assert Rooted(segs) == "/" + segs[0];
    }
  }

  /** strings.ReplaceAll(p, "\\", "/"). */
  function Slashed(p: string): string {
    seq(|p|, i requires 0 <= i < |p| => if p[i] == '\\' then '/' else p[i])
  }

  function CleanPath(p: string): (r: string)
    ensures r != "" && r[0] == '/'
    ensures r != "/" ==> r[|r| - 1] != '/'
  {
    var s := Slashed(p);
    Clean(if s != "" && s[0] == '/' then s else "/" + s)
  }

  // ----------------------------------------------------- cleaning is idempotent

  lemma {:induction false} SegmentsOfRooted(segs: seq<string>, seg: string)
    requires '/' !in seg && AllPlain(segs)
    ensures Segments(seg + Rooted(segs)) == [seg] + segs
    decreases |segs|, |seg|
  {
    var p := seg + Rooted(segs);
    if seg == "" {
      if segs == [] {
        assert p == "";
      } else {
        assert p == ['/'] + (segs[0] + Rooted(segs[1..]));
        SegmentsOfRooted(segs[1..], segs[0]);
        assert [segs[0]] + segs[1..] == segs;
      }
    } else {
      assert p[1..] == seg[1..] + Rooted(segs);
      SegmentsOfRooted(segs, seg[1..]);
      assert p[0] == seg[0] && seg[0] in seg;
      assert [seg[0]] + seg[1..] == seg;
    }
  }

  lemma {:induction false} ReducePlain(segs: seq<string>, done: seq<string>)
    requires AllPlain(segs) && AllPlain(done)
    ensures Reduce(segs, done) == done + segs
    decreases |segs|
  {
    if segs != [] {
      ReducePlain(segs[1..], done + [segs[0]]);
      assert done + [segs[0]] + segs[1..] == done + segs;
    }
  }

  lemma CleanRooted(segs: seq<string>)
    requires AllPlain(segs) && segs != []
    ensures Clean(Rooted(segs)) == Rooted(segs)
  {
    SegmentsOfRooted(segs, "");
    assert "" + Rooted(segs) == Rooted(segs);
    ReducePlain(segs, []);
    assert Reduce([""] + segs, []) == Reduce(segs, []) by {
      assert ([""] + segs)[1..] == segs;
    }
    assert [] + segs == segs;
  }

  lemma {:induction false} RootedNoBackslash(segs: seq<string>)
    requires NoneHas(segs, '\\')
    ensures '\\' !in Rooted(segs)
  {
    if segs != [] {
      RootedNoBackslash(segs[1..]);
    }
  }

  /** cleanPath(cleanPath(p)) == cleanPath(p). */
  lemma CleanPathIdempotent(p: string)
    ensures CleanPath(CleanPath(p)) == CleanPath(p)
  {
    var s := Slashed(p);
    var rooted := if s != "" && s[0] == '/' then s else "/" + s;
    assert '\\' !in rooted;
    var segs := Reduce(Segments(rooted), []);
    SegmentsWhat(rooted, '\\');
    ReduceWhat(Segments(rooted), [], '\\');
    if segs == [] {
      assert Slashed("/") == "/";
      assert Segments("/") == ["", ""];
      assert Reduce(["", ""], []) == Reduce([""], []) == [];
    } else {
      RootedEnds(segs);
      RootedNoBackslash(segs);
      assert Slashed(Rooted(segs)) == Rooted(segs);
      CleanRooted(segs);
    }
  }

  // ------------------------------------------------------------------- keys

  /** What every key starts with. */
  function Root(prefix: string): string {
    if prefix == "" then "" else prefix + "/"
  }

  /** WithPrefix trims slashes from both ends. */
  predicate GoodPrefix(prefix: string) {
    prefix == "" || prefix[|prefix| - 1] != '/'
  }

  function Key(prefix: string, p: string): string {
    var rel := CleanPath(p)[1..];
    if prefix == "" then rel else if rel == "" then prefix else prefix + "/" + rel
  }

  function ListPrefix(prefix: string, p: string): string {
    var k := Key(prefix, p);
    if k == "" then "" else k + "/"
  }

  /** No path maps to a directory key. */
  lemma KeyIsNoDirectory(prefix: string, p: string)
    requires GoodPrefix(prefix)
    ensures var k := Key(prefix, p); k == "" || k[|k| - 1] != '/'
  {
  }

  lemma KeyOfClean(prefix: string, p: string)
    requires p == CleanPath(p) && p != "/"
    ensures Key(prefix, p) == Root(prefix) + p[1..] && ListPrefix(prefix, p) == Root(prefix) + p[1..] + "/"
  {
  }

  /** Distinct cleaned paths, the root among them, have distinct keys. */
  lemma KeyInjective(prefix: string, p: string, q: string)
    requires p == CleanPath(p) && q == CleanPath(q)
    requires Key(prefix, p) == Key(prefix, q)
    ensures p == q
  {
    var a, b := p[1..], q[1..];
    assert p == "/" + a && q == "/" + b;
    if prefix != "" && a != "" && b != "" {
      var r := prefix + "/";
      assert (r + a)[|r|..] == a && (r + b)[|r|..] == b;
    } else if prefix != "" {
      assert |prefix + "/" + a| > |prefix| && |prefix + "/" + b| > |prefix|;
    }
  }

  /** q is p or lies below it. */
  predicate Below(q: string, p: string) {
    p + "/" <= q + "/"
  }

  /** Path ancestry is prefix order of the listing prefixes. */
  lemma BelowIsPrefix(prefix: string, p: string, q: string)
    requires p == CleanPath(p) && q == CleanPath(q) && p != "/" && q != "/"
    ensures Below(q, p) <==> ListPrefix(prefix, p) <= ListPrefix(prefix, q)
  {
    KeyOfClean(prefix, p);
    KeyOfClean(prefix, q);
    var r := Root(prefix);
    var a, b := p + "/", q + "/";
    assert ListPrefix(prefix, p) == r + a[1..] && ListPrefix(prefix, q) == r + b[1..];
    assert a == ['/'] + a[1..] && b == ['/'] + b[1..];
    if r + a[1..] <= r + b[1..] {
      assert forall i :: 1 <= i < |a| ==> a[i] == (r + a[1..])[|r| + i - 1] == (r + b[1..])[|r| + i - 1] == b[i];
    }
    if a <= b {
      assert forall i :: 0 <= i < |a| ==> a[i] == b[i];
    }
  }

  // ------------------------------------------------------------- symlink targets

  /** path.Dir of a cleaned rooted path. */
  function Dir(p: string): string {
    Clean(UpToSlash(p))
  }

  function UpToSlash(p: string): string {
    if p == "" || p[|p| - 1] == '/' then p else UpToSlash(p[..|p| - 1])
  }

  /** path.Join(dir, name). */
  function Join(dir: string, name: string): string {
    Clean(if name == "" then dir else dir + "/" + name)
  }

  /** Where a link at p with this target leads. */
  function LinkTarget(p: string, target: string): string {
    if target != "" && target[0] == '/' then Clean(target) else Join(Dir(p), target)
  }
}
