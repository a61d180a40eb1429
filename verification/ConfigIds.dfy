/** The config ids that the manager prints, joins with commas and splits again. */
module ConfigIds {
  function Digit(d: nat): char
    requires d < 10
  {
    ['0', '1', '2', '3', '4', '5', '6', '7', '8', '9'][d]
  }

  /** %d of a non-negative number. */
  function Digits(n: nat): string {
    if n < 10 then [Digit(n)] else Digits(n / 10) + [Digit(n % 10)]
  }

  /** %d */
  function Decimal(n: int): string {
    if n < 0 then "-" + Digits(-n) else Digits(n)
  }

  /** %s:%d of an element type and a version. */
  function ConfigId(elementType: string, version: int): string {
    elementType + ":" + Decimal(version)
  }

  /** The number that decimal digits write, most significant first. */
  function NumberOf(s: string): int {
    if s == "" then 0 else 10 * NumberOf(s[..|s| - 1]) + (s[|s| - 1] as int - '0' as int)
  }

  lemma {:induction false} DigitsWrite(n: nat)
    ensures NumberOf(Digits(n)) == n && Digits(n) != [] && (Digits(n)[0] == '0' ==> n == 0)
  {
    if n >= 10 {
      DigitsWrite(n / 10);
      assert Digits(n)[..|Digits(n)| - 1] == Digits(n / 10);
    } else {
      assert Digits(n)[..0] == "";
    }
  }

  /** An id is the type, a colon and the version in decimal, without leading zeros and with a minus if negative. */
  lemma ConfigIdReads(t: string, v: int)
    ensures var id := ConfigId(t, v);
      && |id| > |t| + 1 && id[..|t|] == t && id[|t|] == ':'
      && (v >= 0 ==> NumberOf(id[|t| + 1..]) == v && (id[|t| + 1] == '0' ==> v == 0))
      && (v < 0 ==> id[|t| + 1] == '-' && NumberOf(id[|t| + 2..]) == -v && id[|t| + 2..] != "" && id[|t| + 2] != '0')
  {
    var id, n := ConfigId(t, v), if v < 0 then -v else v;
    DigitsWrite(n);
    assert v >= 0 ==> id[|t| + 1..] == Digits(n);
    assert v < 0 ==> id[|t| + 2..] == Digits(n);
  }

  lemma {:induction false} DigitsAreDigits(n: nat)
    ensures Digits(n) != [] && forall c :: c in Digits(n) ==> '0' <= c <= '9'
  {
    if n >= 10 {
      DigitsAreDigits(n / 10);
    }
  }

  lemma {:induction false} DigitsInjective(m: nat, n: nat)
    requires Digits(m) == Digits(n)
    ensures m == n
  {
    var s := Digits(m);
    if m >= 10 {
      DigitsAreDigits(m / 10);
    }
    if n >= 10 {
      DigitsAreDigits(n / 10);
    }
    assert |s| > 1 <==> m >= 10;
    assert s[|s| - 1] == Digit(m % 10) == Digit(n % 10);
    if |s| > 1 {
      assert Digits(m / 10) == s[..|s| - 1] == Digits(n / 10);
      DigitsInjective(m / 10, n / 10);
    }
  }

  lemma DecimalChars(n: int)
    ensures Decimal(n) != [] && forall c :: c in Decimal(n) ==> c == '-' || '0' <= c <= '9'
    ensures Decimal(n)[0] == '-' <==> n < 0
  {
    DigitsAreDigits(if n < 0 then -n else n);
    assert n >= 0 ==> Decimal(n)[0] in Digits(n);
  }

  lemma DecimalInjective(m: int, n: int)
    requires Decimal(m) == Decimal(n)
    ensures m == n
  {
    DecimalChars(m);
    DecimalChars(n);
    if m < 0 {
      assert Decimal(m)[1..] == Digits(-m) && Decimal(n)[1..] == Digits(-n);
      DigitsInjective(-m, -n);
    } else {
      DigitsInjective(m, n);
    }
  }

  lemma NoColonAfter(a: string, b: string, i: int)
    requires ':' !in b && |a| < i < |a + ":" + b|
    ensures (a + ":" + b)[i] != ':'
  {
    assert (a + ":" + b)[i] in b;
  }

  lemma LastColonSplits(a: string, b: string, a': string, b': string)
    requires a + ":" + b == a' + ":" + b' && ':' !in b && ':' !in b'
    ensures a == a' && b == b'
  {
    var s := a + ":" + b;
    assert s[|a|] == ':' && s[|a'|] == ':';
    if |a| < |a'| {
      NoColonAfter(a, b, |a'|);
    } else if |a'| < |a| {
      NoColonAfter(a', b', |a|);
    } else {
      assert a == s[..|a|] && a' == s[..|a'|];
      assert b == s[|a| + 1..] && b' == s[|a'| + 1..];
    }
  }

  /** Different rows never share a config id, whatever characters their types contain. */
  lemma ConfigIdInjective(t: string, v: int, t': string, v': int)
    ensures ConfigId(t, v) == ConfigId(t', v') <==> t == t' && v == v'
  {
    if ConfigId(t, v) == ConfigId(t', v') {
      DecimalChars(v);
      DecimalChars(v');
      LastColonSplits(t, Decimal(v), t', Decimal(v'));
      DecimalInjective(v, v');
    }
  }

  /** strings.Join(parts, ",") */
  function Join(parts: seq<string>): string {
    if parts == [] then ""
    else if |parts| == 1 then parts[0]
    else parts[0] + "," + Join(parts[1..])
  }

  /** The length of the part before the first comma. */
  function FirstPart(s: string): (n: nat)
    ensures n <= |s| && ',' !in s[..n] && (n < |s| ==> s[n] == ',')
  {
    if s == "" || s[0] == ',' then 0
    else
      var n := FirstPart(s[1..]);
      assert s[..n + 1] == [s[0]] + s[1..][..n];
      n + 1
  }

  /** strings.Split(s, ",") */
  function Split(s: string): (parts: seq<string>)
    ensures parts != []
  {
    var n := FirstPart(s);
    if n == |s| then [s] else [s[..n]] + Split(s[n + 1..])
  }

  lemma FirstPartIs(a: string, rest: string)
    requires ',' !in a
    ensures FirstPart(a) == |a|
    ensures FirstPart(a + "," + rest) == |a|
  {
    var s := a + "," + rest;
    var n := FirstPart(s);
    assert s[|a|] == ',' && forall i :: 0 <= i < |a| ==> s[i] == a[i] && a[i] in a;
    assert forall i :: 0 <= i < n ==> s[i] == s[..n][i] && s[i] in s[..n];
    assert forall i :: 0 <= i < |a| ==> a[i] in a;
  }

  lemma {:induction false} SplitHasNoCommas(s: string)
    ensures forall p :: p in Split(s) ==> ',' !in p
    decreases |s|
  {
    var n := FirstPart(s);
    if n < |s| {
      SplitHasNoCommas(s[n + 1..]);
    } else {
      assert s[..n] == s;
    }
  }

  lemma SplitFirst(a: string, rest: string)
    requires ',' !in a
    ensures Split(a) == [a] && Split(a + "," + rest) == [a] + Split(rest)
  {
    var s := a + "," + rest;
    FirstPartIs(a, rest);
    assert s[..|a|] == a && s[|a| + 1..] == rest;
  }

  /** Splitting undoes joining exactly for a non-empty list of parts without commas. */
  lemma {:induction false} SplitJoin(parts: seq<string>)
    ensures Split(Join(parts)) == parts <==> parts != [] && forall p :: p in parts ==> ',' !in p
  {
    hide Split, FirstPart;
    SplitHasNoCommas(Join(parts));
    if parts != [] && forall p :: p in parts ==> ',' !in p {
      SplitFirst(parts[0], Join(parts[1..]));
      if |parts| > 1 {
        SplitJoin(parts[1..]);
      }
    }
  }

  lemma {:induction false} SplitConcat(a: string, b: string)
    ensures Split(a + "," + b) == Split(a) + Split(b)
    decreases |a|
  {
    hide Split;
    var n := FirstPart(a);
    if n == |a| {
      assert a[..n] == a;
      SplitFirst(a, b);
    } else {
      var head, tail := a[..n], a[n + 1..];
      assert a == head + "," + tail;
      assert a + "," + b == head + "," + (tail + "," + b);
      SplitFirst(head, tail);
      SplitFirst(head, tail + "," + b);
      SplitConcat(tail, b);
    }
  }

  ghost predicate IsPartOfSome(p: string, parts: seq<string>) {
    exists i :: 0 <= i < |parts| && p in Split(parts[i])
  }

  /** What comes out are the parts of the parts. */
  lemma {:induction false} SplitOfJoin(parts: seq<string>, p: string)
    requires parts != []
    ensures p in Split(Join(parts)) <==> IsPartOfSome(p, parts)
  {
    hide Split;
    if |parts| > 1 {
      var first, rest := parts[0], parts[1..];
      SplitConcat(first, Join(rest));
      SplitOfJoin(rest, p);
      assert forall i :: 0 <= i < |rest| ==> rest[i] == parts[i + 1];
      if IsPartOfSome(p, rest) {
        var i :| 0 <= i < |rest| && p in Split(rest[i]);
        assert p in Split(parts[i + 1]);
      }
      if IsPartOfSome(p, parts) {
        var i :| 0 <= i < |parts| && p in Split(parts[i]);
        assert i > 0 ==> p in Split(rest[i - 1]);
      }
    }
  }

  /** A part without commas comes out whole, whatever the others are. */
  lemma {:induction false} PartSurvives(parts: seq<string>, p: string)
    requires p in parts && ',' !in p
    ensures p in Split(Join(parts))
  {
    hide Split;
    SplitFirst(p, "");
    if |parts| > 1 {
      SplitConcat(parts[0], Join(parts[1..]));
      if p != parts[0] {
        PartSurvives(parts[1..], p);
      }
    }
  }

  lemma ConfigIdHasNoComma(t: string, v: int)
    ensures ',' in ConfigId(t, v) <==> ',' in t
  {
    DecimalChars(v);
  }
}
