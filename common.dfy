/** Small building blocks shared by the model: optional values, results,
    JSON scalars, Python truthiness, decimal text, whitespace trimming and
    the ordered listing of table keys. */
module Common {

  datatype Option<+T> = None | Some(value: T)

  datatype Result<+T, +E> = Ok(value: T) | Err(error: E)

  /** A JSON scalar as it arrives in a request body. */
  datatype Json = JStr(s: string) | JInt(n: int) | JNull

  /** Python truthiness of an optional integer id: a missing id and 0 are both false. */
  predicate Truthy(id: Option<nat>)
  {
    id.Some? && id.value != 0
  }

  // ---------------------------------------------------------------- decimal text

  predicate IsDigit(c: char)
  {
    '0' <= c <= '9'
  }

  predicate AllDigits(s: string)
  {
    forall i :: 0 <= i < |s| ==> IsDigit(s[i])
  }

  function DigitChar(d: nat): (c: char)
    requires d < 10
    ensures IsDigit(c) && (c as int) - ('0' as int) == d
  {
    (('0' as int) + d) as char
  }

  /** Python's str() of a natural number: decimal digits, no leading zero. */
  function NatToString(n: nat): (s: string)
    ensures |s| > 0 && AllDigits(s)
    ensures s[0] == '0' ==> n == 0
    decreases n
  {
    if n < 10 then [DigitChar(n)] else NatToString(n / 10) + [DigitChar(n % 10)]
  }

  /** Python's str() of an integer. */
  function IntToString(n: int): (s: string)
    ensures |s| > 0
    ensures n < 0 <==> s[0] == '-'
  {
    if n < 0 then "-" + NatToString(-n) else NatToString(n)
  }

  /** The value of a string of decimal digits (leading zeros allowed, as in Python's int()). */
  function ParseNat(s: string): nat
    requires AllDigits(s)
    decreases |s|
  {
    if s == [] then 0 else ParseNat(s[..|s| - 1]) * 10 + ((s[|s| - 1] as int) - ('0' as int))
  }

  lemma {:induction false} ParseNatToString(n: nat)
    ensures ParseNat(NatToString(n)) == n
    decreases n
  {
    var s := NatToString(n);
    if n >= 10 {
      ParseNatToString(n / 10);
      assert s[..|s| - 1] == NatToString(n / 10);
    }
  }

  /** Printing is injective: two naturals with the same decimal text are equal. */
  lemma NatToStringInjective(m: nat, n: nat)
    requires NatToString(m) == NatToString(n)
    ensures m == n
  {
    ParseNatToString(m);
    ParseNatToString(n);
  }

  /** Whether s begins with t, compared character by character (a literal part of a URL pattern). */
  predicate StartsWith(t: string, s: string): (b: bool)
    ensures b ==> |t| <= |s|
    decreases |t|
  {
    t == [] || (s != [] && t[0] == s[0] && StartsWith(t[1..], s[1..]))
  }

  /** StartsWith is the prefix relation on sequences. */
  lemma {:induction false} StartsWithIsPrefix(t: string, s: string)
    ensures StartsWith(t, s) <==> t <= s
    decreases |t|
  {
    if t != [] && s != [] {
      StartsWithIsPrefix(t[1..], s[1..]);
      assert t == [t[0]] + t[1..];
      assert s == [s[0]] + s[1..];
    }
  }

  /** Length of the longest prefix of s made of decimal digits (what the regex [0-9]+ consumes greedily). */
  function DigitPrefixLength(s: string): (n: nat)
    ensures n <= |s| && AllDigits(s[..n])
    ensures n < |s| ==> !IsDigit(s[n])
    decreases |s|
  {
    if s != [] && IsDigit(s[0]) then
      var k := DigitPrefixLength(s[1..]);
      assert s[..1 + k] == [s[0]] + s[1..][..k];
      1 + k
    else 0
  }

  /** Digits followed by a non-digit: the digit run is exactly the digits. */
  lemma {:induction false} DigitPrefixOfDigits(d: string, rest: string)
    requires AllDigits(d) && (rest == [] || !IsDigit(rest[0]))
    ensures DigitPrefixLength(d + rest) == |d|
    decreases |d|
  {
    if d != [] {
      DigitPrefixOfDigits(d[1..], rest);
      assert (d + rest)[1..] == d[1..] + rest;
    }
  }

  // ---------------------------------------------------------------- whitespace

  /** Python's str.isspace() for one character. */
  predicate IsSpace(c: char)
  {
    var n := c as int;
    (9 <= n <= 13) || (28 <= n <= 32) || n == 0x85 || n == 0xA0 || n == 0x1680 ||
    (0x2000 <= n <= 0x200A) || n == 0x2028 || n == 0x2029 || n == 0x202F || n == 0x205F || n == 0x3000
  }

  predicate AllSpace(s: string)
  {
    forall i :: 0 <= i < |s| ==> IsSpace(s[i])
  }

  /** Python's s.lstrip(): r is a suffix of s, what was dropped is whitespace, r does not start with it. */
  function TrimStart(s: string): (r: string)
    ensures |r| <= |s| && r == s[|s| - |r|..]
    ensures AllSpace(s[..|s| - |r|])
    ensures r == [] || !IsSpace(r[0])
    decreases |s|
  {
    if s != [] && IsSpace(s[0]) then TrimStart(s[1..]) else s
  }

  /** Python's s.rstrip(): r is a prefix of s, what was dropped is whitespace, r does not end with it. */
  function TrimEnd(s: string): (r: string)
    ensures |r| <= |s| && r == s[..|r|]
    ensures AllSpace(s[|r|..])
    ensures r == [] || !IsSpace(r[|r| - 1])
    decreases |s|
  {
    if s != [] && IsSpace(s[|s| - 1]) then
      var r := TrimEnd(s[..|s| - 1]);
      assert s[|r|..] == s[..|s| - 1][|r|..] + [s[|s| - 1]];
      r
    else s
  }

  /** Python's s.strip(), which a CharField applies to submitted text. */
  function Trim(s: string): string
  {
    TrimEnd(TrimStart(s))
  }

  /** Stripping leaves nothing exactly when the text is all whitespace (what "blank" means). */
  lemma TrimEmptyIffBlank(s: string)
    ensures Trim(s) == [] <==> AllSpace(s)
  {
    var t := TrimStart(s);
    if Trim(s) == [] {
      assert AllSpace(t[0..]);
      assert s[..|s|] == s;
    } else {
      var r := Trim(s);
      assert r[0] == t[0];
      assert t[0] == s[|s| - |t|];
    }
  }

  /** lstrip() removes exactly a whitespace prefix in front of text that does not start with whitespace. */
  lemma {:induction false} TrimStartPrefix(pre: string, x: string)
    requires AllSpace(pre) && (x == [] || !IsSpace(x[0]))
    ensures TrimStart(pre + x) == x
    decreases |pre|
  {
    if pre == [] {
      assert pre + x == x;
    } else {
      assert (pre + x)[0] == pre[0];
      assert (pre + x)[1..] == pre[1..] + x;
      TrimStartPrefix(pre[1..], x);
    }
  }

  /** rstrip() removes exactly a whitespace suffix behind text that does not end with whitespace. */
  lemma {:induction false} TrimEndSuffix(x: string, post: string)
    requires AllSpace(post) && (x == [] || !IsSpace(x[|x| - 1]))
    ensures TrimEnd(x + post) == x
    decreases |post|
  {
    if post == [] {
      assert x + post == x;
    } else {
      var s := x + post;
      assert s[|s| - 1] == post[|post| - 1];
      assert s[..|s| - 1] == x + post[..|post| - 1];
      TrimEndSuffix(x, post[..|post| - 1]);
    }
  }

  /** strip() of text padded with whitespace on both sides gives the text back. */
  lemma TrimPadded(pre: string, x: string, post: string)
    requires AllSpace(pre) && AllSpace(post) && x != [] && !IsSpace(x[0]) && !IsSpace(x[|x| - 1])
    ensures Trim(pre + x + post) == x
  {
    assert pre + x + post == pre + (x + post);
    TrimStartPrefix(pre, x + post);
    TrimEndSuffix(x, post);
  }

  // ---------------------------------------------------------------- ordered keys

  predicate Increasing(xs: seq<nat>)
  {
    forall i, j :: 0 <= i < j < |xs| ==> xs[i] < xs[j]
  }

  /** A least element of a non-empty set, picked by removing an arbitrary element and comparing. */
  ghost function Least(s: set<nat>): (m: nat)
    requires s != {}
    ensures m in s && forall k :: k in s ==> m <= k
    decreases |s|
  {
    var x :| x in s;
    var rest := s - {x};
    if rest == {} then
      assert forall k :: k in s ==> k == x by {
        forall k | k in s ensures k == x {
          assert k !in rest;
        }
      }
      x
    else
      var m := Least(rest);
      assert forall k :: k in s ==> k == x || k in rest;
      if x < m then x else m
  }

  /** The least element of a non-empty set of ids. */
  function Min(s: set<nat>): (m: nat)
    requires s != {}
    ensures m in s && forall k :: k in s ==> m <= k
  {
    assert Least(s) in s && forall k :: k in s ==> Least(s) <= k;
    var m :| m in s && forall k :: k in s ==> m <= k;
    m
  }

  /** The ids of a table in ascending order, each exactly once (the order rows are listed in). */
  function SortedIds(s: set<nat>): (r: seq<nat>)
    ensures Increasing(r)
    ensures forall k :: k in r <==> k in s
    decreases |s|
  {
    if s == {} then []
    else
      var m := Min(s);
      [m] + SortedIds(s - {m})
  }

  /** The elements of xs satisfying p, in their original order. */
  function Filter(xs: seq<nat>, p: nat -> bool): (r: seq<nat>)
    ensures forall x :: x in r <==> x in xs && p(x)
    ensures Increasing(xs) ==> Increasing(r)
    decreases |xs|
  {
    if xs == [] then []
    else if p(xs[0]) then
      var rest := Filter(xs[1..], p);
      assert Increasing(xs) ==> forall j :: 0 <= j < |rest| ==> xs[0] < rest[j] by {
        if Increasing(xs) {
          forall j | 0 <= j < |rest| ensures xs[0] < rest[j] {
            assert rest[j] in xs[1..];
          }
        }
      }
      [xs[0]] + rest
    else Filter(xs[1..], p)
  }
}
