/** What following symlinks on the final path component means (s3ops.go, resolve
    and resolveForRead), on the plain bucket. */
module Links {
  import opened Common
  import opened Bucket
  import opened Paths

  const MAX_DEPTH: nat := 40

  /** The path a link object at p leads to; None when p is no link. */
  function Hop(s: Store, prefix: string, p: string): Option<string> {
    if p == "/" || Key(prefix, p) !in s then None
    else match s[Key(prefix, p)].meta.target {
      case None => None
      case Some(target) => Some(LinkTarget(p, target))
    }
  }

  /** The hops possible in a bucket, as a graph on paths. */
  function Graph(s: Store, prefix: string): string -> Option<string> {
    p => Hop(s, prefix, p)
  }

  /** The object at a path, if there is one. */
  function ObjectAt(s: Store, prefix: string, p: string): Option<Object> {
    if p != "/" && Key(prefix, p) in s then Some(s[Key(prefix, p)]) else None
  }

  /** The objects in a bucket, by path. */
  function Files(s: Store, prefix: string): string -> Option<Object> {
    p => ObjectAt(s, prefix, p)
  }

  function HeadOfFile(o: Option<Object>): Option<Head> {
    match o
    case None => None
    case Some(f) => Some(HeadOf(f))
  }

  /** f and g agree; used where g should stay folded. */
  ghost predicate Agrees<T>(f: string -> T, g: string -> T) {
    forall p {:trigger g(p)} :: f(p) == g(p)
  }

  /** The path after exactly n hops from p; None when the chain is shorter. */
  function Chain(hop: string -> Option<string>, p: string, n: nat): Option<string>
    decreases n
  {
    if n == 0 then Some(p)
    else match hop(p) {
      case None => None
      case Some(q) => Chain(hop, q, n - 1)
    }
  }

  lemma {:induction false} ChainGrows(hop: string -> Option<string>, p: string, n: nat)
    requires Chain(hop, p, n).Some?
    ensures Chain(hop, p, n + 1) == hop(Chain(hop, p, n).value)
    decreases n
  {
    if n > 0 {
      ChainGrows(hop, hop(p).value, n - 1);
    }
  }

  datatype Walk =
    | Ended(path: string, hops: nat)
    | TooManyLinks(path: string, hops: nat)

  /** The loop shared by both walkers, from path p after `hops` hops. */
  function Follow(hop: string -> Option<string>, p: string, hops: nat): Walk
    requires hops <= MAX_DEPTH
    decreases MAX_DEPTH - hops
  {
    match hop(p)
    case None => Ended(p, hops)
    case Some(q) =>
      if hops + 1 > MAX_DEPTH then TooManyLinks(p, hops + 1) else Follow(hop, q, hops + 1)
  }

  lemma {:induction false} FollowFinds(hop: string -> Option<string>, p: string, hops: nat, n: nat)
    requires hops + n <= MAX_DEPTH && Chain(hop, p, n).Some? && hop(Chain(hop, p, n).value).None?
    ensures Follow(hop, p, hops) == Ended(Chain(hop, p, n).value, hops + n)
    decreases n
  {
    if n > 0 {
      FollowFinds(hop, hop(p).value, hops + 1, n - 1);
    }
  }

  lemma {:induction false} FollowFails(hop: string -> Option<string>, p: string, hops: nat)
    requires hops <= MAX_DEPTH && Chain(hop, p, MAX_DEPTH + 1 - hops).Some?
    ensures Chain(hop, p, MAX_DEPTH - hops).Some?
    ensures Follow(hop, p, hops) == TooManyLinks(Chain(hop, p, MAX_DEPTH - hops).value, MAX_DEPTH + 1)
    decreases MAX_DEPTH - hops
  {
    if hops < MAX_DEPTH {
      FollowFails(hop, hop(p).value, hops + 1);
    }
  }

  lemma {:induction false} ChainEnds(hop: string -> Option<string>, p: string, m: nat) returns (n: nat)
    requires Chain(hop, p, m).None?
    ensures n < m && Chain(hop, p, n).Some? && hop(Chain(hop, p, n).value).None?
    decreases m
  {
    if hop(p).None? {
      n := 0;
    } else {
      n := ChainEnds(hop, hop(p).value, m - 1);
      n := n + 1;
    }
  }

  /** Resolution fails exactly when the chain needs more than 40 hops, and
      otherwise ends where the chain ends. */
  lemma FollowMeaning(hop: string -> Option<string>, p: string)
    ensures Follow(hop, p, 0).TooManyLinks? <==> Chain(hop, p, 41).Some?
    ensures Follow(hop, p, 0).Ended? ==>
              var r := Follow(hop, p, 0);
              r.hops <= 40 && Chain(hop, p, r.hops) == Some(r.path) && hop(r.path).None?
  {
    if Chain(hop, p, MAX_DEPTH + 1).Some? {
      FollowFails(hop, p, 0);
    } else {
      var n := ChainEnds(hop, p, MAX_DEPTH + 1);
      FollowFinds(hop, p, 0, n);
    }
  }

  lemma {:induction false} ChainAdds(hop: string -> Option<string>, p: string, m: nat, n: nat)
    requires Chain(hop, p, m).Some?
    ensures Chain(hop, p, m + n) == Chain(hop, Chain(hop, p, m).value, n)
    decreases m
  {
    if m > 0 {
      ChainAdds(hop, hop(p).value, m - 1, n);
    }
  }

  lemma {:induction false} ShorterChain(hop: string -> Option<string>, p: string, m: nat, n: nat)
    requires m <= n && Chain(hop, p, n).Some?
    ensures Chain(hop, p, m).Some?
    decreases m
  {
    if m > 0 {
      ShorterChain(hop, hop(p).value, m - 1, n - 1);
    }
  }

  lemma {:induction false} CycleNeverEnds(hop: string -> Option<string>, p: string, period: nat, n: nat)
    requires period > 0 && Chain(hop, p, period) == Some(p)
    ensures Chain(hop, p, n).Some?
    decreases n
  {
    if n >= period {
      CycleNeverEnds(hop, p, period, n - period);
      ChainAdds(hop, p, period, n - period);
    } else {
      ShorterChain(hop, p, n, period);
    }
  }

  /** Every chain that runs into a cycle fails. */
  lemma CyclesFail(hop: string -> Option<string>, p: string, lead: nat, period: nat)
    requires period > 0 && Chain(hop, p, lead).Some?
    requires Chain(hop, Chain(hop, p, lead).value, period) == Chain(hop, p, lead)
    ensures Follow(hop, p, 0).TooManyLinks?
  {
    var q := Chain(hop, p, lead).value;
    CycleNeverEnds(hop, q, period, MAX_DEPTH + 1);
    ChainAdds(hop, p, lead, MAX_DEPTH + 1);
    ShorterChain(hop, p, MAX_DEPTH + 1, lead + MAX_DEPTH + 1);
    FollowMeaning(hop, p);
  }
}
