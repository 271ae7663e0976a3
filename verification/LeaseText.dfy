/** The texts a lock object carries: its lease deadline in decimal and the
    body whose hash is the ETag (lock_s3.go, putLock and tryAcquire). */
module LeaseText {

  import opened Common

  /** strconv.FormatInt(n, 10) on the non-negative deadlines putLock writes. */
  function FormatNat(n: nat): (s: string)
    ensures |s| > 0
    ensures forall i :: 0 <= i < |s| ==> '0' <= s[i] <= '9'
  {
    if n < 10 then ['0' + n as char] else FormatNat(n / 10) + ['0' + (n % 10) as char]
  }

  /** The value of a run of decimal digits, None for anything else. */
  function ParseDigits(s: string): Option<nat> {
    if s == [] then None
    else
      var last := s[|s| - 1];
      if !('0' <= last <= '9') then None
      else
        var d := (last - '0') as nat;
        if |s| == 1 then Some(d)
        else match ParseDigits(s[..|s| - 1]) {
          case None => None
          case Some(v) => Some(10 * v + d)
        }
  }

  /** strconv.ParseInt(s, 10, 64) without its range check. */
  function ParseInt(s: string): Option<int> {
    if s != [] && (s[0] == '-' || s[0] == '+') then
      match ParseDigits(s[1..]) {
        case None => None
        case Some(v) => Some((if s[0] == '-' then -1 else 1) * v)
      }
    else match ParseDigits(s) {
      case None => None
      case Some(v) => Some(v)
    }
  }

  lemma {:induction false} ParseDigitsFormat(n: nat)
    ensures ParseDigits(FormatNat(n)) == Some(n)
  {
    if n >= 10 {
      ParseDigitsFormat(n / 10);
      var s := FormatNat(n);
      assert s[..|s| - 1] == FormatNat(n / 10);
    }
  }

  /** A deadline read back from the metadata is the deadline written there. */
  lemma ParseFormat(n: nat)
    ensures ParseInt(FormatNat(n)) == Some(n)
  {
    ParseDigitsFormat(n);
  }

  predicate IsDigit(c: char) {
    '0' <= c <= '9'
  }

  predicate AllDigits(s: string) {
    s != [] && forall i :: 0 <= i < |s| ==> IsDigit(s[i])
  }

  lemma {:induction false} DigitsOnly(s: string)
    ensures ParseDigits(s).Some? <==> AllDigits(s)
  {
    if |s| > 1 {
      DigitsOnly(s[..|s| - 1]);
      if AllDigits(s[..|s| - 1]) && IsDigit(s[|s| - 1]) {
        assert forall i :: 0 <= i < |s| ==> IsDigit(s[i]);
      }
      if AllDigits(s) {
        assert AllDigits(s[..|s| - 1]);
      }
    }
  }

  /** Exactly the runs of digits, with or without a sign, are numbers. */
  lemma ParsesExactly(s: string)
    ensures ParseInt(s).Some? <==> AllDigits(s) || (s != [] && (s[0] == '-' || s[0] == '+') && AllDigits(s[1..]))
  {
    DigitsOnly(s);
    if s != [] {
      DigitsOnly(s[1..]);
    }
  }

  /** They are read in decimal. */
  lemma ParsesDecimal(s: string, d: char)
    requires IsDigit(d)
    ensures ParseInt([d]) == Some((d - '0') as int)
    ensures AllDigits(s) ==>
              ParseInt(s).Some? && ParseInt(s + [d]) == Some(10 * ParseInt(s).value + (d - '0') as int)
    ensures AllDigits(s) ==> ParseInt("-" + s) == Some(-ParseInt(s).value) && ParseInt("+" + s) == ParseInt(s)
  {
    if AllDigits(s) {
      DigitsOnly(s);
      assert IsDigit(s[0]);
      assert (s + [d])[..|s|] == s && (s + [d])[0] == s[0];
      assert ("-" + s)[1..] == s && ("+" + s)[1..] == s;
    }
  }

  predicate OneLine(s: string) {
    '\n' !in s
  }

  /** The body putLock uploads; its hash is the object's ETag. */
  function LockBody(owner: string, expiry: string): string {
    owner + "\n" + expiry + "\n"
  }

  /** Distinct (owner, deadline) pairs give distinct bodies, which is what
      makes If-Match a compare-and-swap. */
  lemma LockBodyInjective(o1: string, e1: string, o2: string, e2: string)
    requires OneLine(o1) && OneLine(o2)
    requires LockBody(o1, e1) == LockBody(o2, e2)
    ensures o1 == o2 && e1 == e2
  {
    var b := LockBody(o1, e1);
    assert b == o1 + ("\n" + e1 + "\n") == o2 + ("\n" + e2 + "\n");
    assert b[|o1|] == '\n' && b[|o2|] == '\n';
    assert forall k :: 0 <= k < |o1| ==> b[k] == o1[k];
    assert forall k :: 0 <= k < |o2| ==> b[k] == o2[k];
    assert o1 == b[..|o1|] && o2 == b[..|o2|];
    assert e1 == b[|o1| + 1..|b| - 1] && e2 == b[|o2| + 1..|b| - 1];
  }
}
