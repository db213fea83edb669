/** API version order and negotiation (internal/infra/dockerapi/client.go). */
module Versions {
  import Decimals

  const MAX_API_VERSION := "1.45"

  // --- atoi -------------------------------------------------------------------------

  const INT_RANGE := 0x1_0000_0000_0000_0000

  /** The value of a 64-bit int after an operation with this exact result. */
  function Wrap(n: int): (w: int)
    ensures -(INT_RANGE / 2) <= w < INT_RANGE / 2
  {
    (n + INT_RANGE / 2) % INT_RANGE - INT_RANGE / 2
  }

  /** Where atoi stops: the number of digits a string starts with. */
  function LeadingDigits(s: string): (n: nat)
    ensures n <= |s| && forall i :: 0 <= i < n ==> Decimals.IsDigit(s[i])
    ensures n < |s| ==> !Decimals.IsDigit(s[n])
  {
    if s == "" || !Decimals.IsDigit(s[0]) then 0 else 1 + LeadingDigits(s[1..])
  }

  /** The number the leading digits spell, exactly. */
  function LeadingValue(s: string): nat {
    Decimals.Value(s[..LeadingDigits(s)])
  }

  lemma WrapShift(n: int, k: int)
    ensures Wrap(n + k * INT_RANGE) == Wrap(n)
  {
    var m := n + INT_RANGE / 2;
    assert (m + k * INT_RANGE) % INT_RANGE == m % INT_RANGE;
  }

  /** Wrapping at every step is wrapping once at the end. */
  lemma WrapStep(n: int, d: int)
    ensures Wrap(Wrap(n) * 10 + d) == Wrap(n * 10 + d)
  {
    var k := (n + INT_RANGE / 2) / INT_RANGE;
    assert Wrap(n) == n - k * INT_RANGE;
    WrapShift(n * 10 + d, -10 * k);
  }

  /** atoi: the leading digits, in 64-bit arithmetic; it never fails. */
  function Atoi(s: string): int {
    Wrap(LeadingValue(s))
  }

  method ParseAtoi(s: string) returns (n: int)
    ensures n == Atoi(s)
  {
    n := 0;
    var i := 0;
    while i < |s| && '0' <= s[i] <= '9'
      invariant i <= LeadingDigits(s)
      invariant n == Wrap(Decimals.Value(s[..i]))
    {
      var d := s[i] as int - '0' as int;
      assert s[..i + 1][..i] == s[..i];
      WrapStep(Decimals.Value(s[..i]), d);
      n := Wrap(n * 10 + d);
      i := i + 1;
    }
  }

  /** The component is read as the number it spells exactly when that number fits 63 bits. */
  lemma AtoiExact(s: string)
    ensures Atoi(s) == LeadingValue(s) <==> LeadingValue(s) < INT_RANGE / 2
  {
  }

  /** So a component of 2^64, for one, is read as 0. */
  lemma AtoiOverflows()
    ensures Atoi(Decimals.Decimal(INT_RANGE)) == 0
  {
    hide Decimals.Decimal, Decimals.Digits, Decimals.Value;
    var s := Decimals.Decimal(INT_RANGE);
    Decimals.ValueOfDecimal(INT_RANGE);
    assert LeadingDigits(s) == |s| by {
      assert forall i :: 0 <= i < |s| ==> s[i] in s;
    }
    assert s[..|s|] == s;
  }

  // --- compareVersions ----------------------------------------------------------------

  /** strings.Split on a dot: one component more than there are dots. */
  function Split(s: string): (parts: seq<string>)
    ensures |parts| >= 1
  {
    if s == "" then [""]
    else
      var later := Split(s[1..]);
      if s[0] == '.' then [""] + later else [[s[0]] + later[0]] + later[1..]
  }

  /** Components with dots between them. */
  function Join(parts: seq<string>): string
    requires parts != []
  {
    if |parts| == 1 then parts[0] else parts[0] + "." + Join(parts[1..])
  }

  lemma {:induction false} SplitFirst(part: string, rest: string)
    requires '.' !in part
    ensures Split(part + "." + rest) == [part] + Split(rest)
  {
    if part == "" {
      assert ("" + "." + rest)[1..] == rest;
    } else {
      assert (part + "." + rest)[1..] == part[1..] + "." + rest;
      SplitFirst(part[1..], rest);
      assert part == [part[0]] + part[1..];
    }
  }

  lemma {:induction false} SplitSingle(part: string)
    requires '.' !in part
    ensures Split(part) == [part]
  {
    if part != "" {
      SplitSingle(part[1..]);
      assert part == [part[0]] + part[1..];
    }
  }

  /** Splitting gives back exactly the components that were joined by dots. */
  lemma {:induction false} SplitOfJoin(parts: seq<string>)
    requires parts != [] && forall part :: part in parts ==> '.' !in part
    ensures Split(Join(parts)) == parts
  {
    if |parts| == 1 {
      SplitSingle(parts[0]);
    } else {
      SplitFirst(parts[0], Join(parts[1..]));
      SplitOfJoin(parts[1..]);
      assert parts == [parts[0]] + parts[1..];
    }
  }

  /** The i-th component of a version; one that is missing counts as 0. */
  function Component(v: string, i: nat): int {
    var parts := Split(v);
    if i < |parts| then Atoi(parts[i]) else 0
  }

  /** v comes before w: the first components that differ say so. */
  ghost predicate Before(v: string, w: string) {
    exists i: nat :: Component(v, i) < Component(w, i) && Agree(v, w, i)
  }

  /** The components below the i-th are the same. */
  ghost predicate Agree(v: string, w: string, i: nat) {
    forall j: nat :: j < i ==> Component(v, j) == Component(w, j)
  }

  ghost predicate Same(v: string, w: string) {
    forall i: nat :: Component(v, i) == Component(w, i)
  }

  ghost predicate AtMost(v: string, w: string) {
    Before(v, w) || Same(v, w)
  }

  /** compareVersions: the sign of the comparison, for any two strings. */
  method CompareVersions(a: string, b: string) returns (r: int)
    ensures r == -1 || r == 0 || r == 1
    ensures r == -1 <==> Before(a, b)
    ensures r == 0 <==> Same(a, b)
    ensures r == 1 <==> Before(b, a)
  {
    var as_, bs := Split(a), Split(b);
    var i := 0;
    while i < |as_| || i < |bs|
      invariant Agree(a, b, i)
      decreases |as_| + |bs| - i
    {
      var an, bn := 0, 0;
      if i < |as_| {
        an := ParseAtoi(as_[i]);
      }
      if i < |bs| {
        bn := ParseAtoi(bs[i]);
      }
      assert an == Component(a, i) && bn == Component(b, i);
      if an != bn {
        BeforeIsStrict(a, b);
        assert !Same(a, b);
        if an < bn {
          assert Before(a, b);
          return -1;
        }
        assert Agree(b, a, i) && Before(b, a);
        return 1;
      }
      i := i + 1;
    }
    assert forall j: nat :: j >= i ==> Component(a, j) == 0 == Component(b, j);
    assert Same(a, b);
    return 0;
  }

  /** No version comes both before and after another, and what comes before is not the same. */
  lemma BeforeIsStrict(v: string, w: string)
    ensures !(Before(v, w) && Before(w, v))
    ensures !(Before(v, w) && Same(v, w))
  {
  }

  lemma {:induction false} FirstDifference(v: string, w: string, n: nat) returns (i: nat)
    requires !Agree(v, w, n)
    ensures i < n && Component(v, i) != Component(w, i) && Agree(v, w, i)
  {
    if Agree(v, w, n - 1) {
      i := n - 1;
    } else {
      i := FirstDifference(v, w, n - 1);
    }
  }

  /** Any two versions compare. */
  lemma Trichotomy(v: string, w: string)
    ensures Before(v, w) || Same(v, w) || Before(w, v)
  {
    if !Same(v, w) {
      var n: nat :| Component(v, n) != Component(w, n);
      var i := FirstDifference(v, w, n + 1);
      assert Agree(w, v, i);
    }
  }

  lemma BeforeTransitive(u: string, v: string, w: string)
    requires AtMost(u, v) && AtMost(v, w)
    ensures AtMost(u, w)
    ensures Before(u, v) || Before(v, w) ==> Before(u, w)
  {
    if Before(u, v) {
      var i: nat :| Component(u, i) < Component(v, i) && Agree(u, v, i);
      if Before(v, w) {
        var j: nat :| Component(v, j) < Component(w, j) && Agree(v, w, j);
        var m := if i < j then i else j;
        assert Component(u, m) < Component(w, m) && Agree(u, w, m);
      } else {
        assert Component(u, i) < Component(w, i) && Agree(u, w, i);
      }
    } else if Before(v, w) {
      var j: nat :| Component(v, j) < Component(w, j) && Agree(v, w, j);
      assert Component(u, j) < Component(w, j) && Agree(u, w, j);
    }
  }

  /** Version order is a total preorder on all strings. */
  lemma TotalPreorder(u: string, v: string, w: string)
    ensures AtMost(u, u)
    ensures AtMost(u, v) || AtMost(v, u)
    ensures AtMost(u, v) && AtMost(v, u) <==> Same(u, v)
    ensures AtMost(u, v) && AtMost(v, w) ==> AtMost(u, w)
  {
    Trichotomy(u, v);
    BeforeIsStrict(u, v);
    BeforeIsStrict(v, u);
    if AtMost(u, v) && AtMost(v, w) {
      BeforeTransitive(u, v, w);
    }
  }

  // --- Negotiate ------------------------------------------------------------------------

  /** A version both sides know, and the newest such. */
  ghost predicate GreatestLowerBound(r: string, v: string, w: string) {
    && AtMost(r, v) && AtMost(r, w)
    && forall u: string :: AtMost(u, v) && AtMost(u, w) ==> AtMost(u, r)
  }

  /** The daemon's reply to /version: the version it names, possibly none, or no usable reply. */
  datatype VersionReply = Names(apiVersion: string) | Unusable

  class Client {
    var version: string

    constructor ()
      ensures version == MAX_API_VERSION
    {
      version := MAX_API_VERSION;
    }

    /** Negotiate, from the daemon's reply: the version every later request asks for. */
    method Negotiate(reply: VersionReply) returns (ok: bool)
      modifies this
      ensures ok <==> reply.Names?
      ensures !ok ==> version == old(version)
      ensures ok && reply.apiVersion == "" ==> version == MAX_API_VERSION
      ensures ok && reply.apiVersion != "" ==>
        && (version == reply.apiVersion || version == MAX_API_VERSION)
        && GreatestLowerBound(version, reply.apiVersion, MAX_API_VERSION)
    {
      if reply.Unusable? {
        return false;
      }
      var negotiated := MAX_API_VERSION;
      if reply.apiVersion != "" {
        var c := CompareVersions(reply.apiVersion, MAX_API_VERSION);
        if c < 0 {
          negotiated := reply.apiVersion;
        }
        NegotiatedIsGreatest(reply.apiVersion);
      }
      version := negotiated;
      return true;
    }
  }

  lemma NegotiatedIsGreatest(daemon: string)
    ensures Before(daemon, MAX_API_VERSION) ==> GreatestLowerBound(daemon, daemon, MAX_API_VERSION)
    ensures !Before(daemon, MAX_API_VERSION) ==> GreatestLowerBound(MAX_API_VERSION, daemon, MAX_API_VERSION)
  {
    Trichotomy(daemon, MAX_API_VERSION);
    if Same(daemon, MAX_API_VERSION) {
      assert Same(MAX_API_VERSION, daemon);
    }
  }
}
