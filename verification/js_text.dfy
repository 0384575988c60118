/**
 * The JavaScript string and number primitives the parsers rely on:
 * `trim`, lodash's `_.trim(s, chars)`, `indexOf`, `split` on one character,
 * `parseInt` and the decimal form of a number in a template literal.
 */
module JsText {
  import opened Wrappers

  /** The ECMAScript WhiteSpace and LineTerminator characters, which `trim`
      removes and `parseInt` skips. */
  const Spaces: set<char> := {
    '\t', '\n', '\U{000B}', '\U{000C}', '\r', ' ', '\U{00A0}', '\U{1680}',
    '\U{2000}', '\U{2001}', '\U{2002}', '\U{2003}', '\U{2004}', '\U{2005}',
    '\U{2006}', '\U{2007}', '\U{2008}', '\U{2009}', '\U{200A}',
    '\U{2028}', '\U{2029}', '\U{202F}', '\U{205F}', '\U{3000}', '\U{FEFF}'
  }

  // ---------------------------------------------------------------------
  // Stripping characters from the ends

  /** Drops the longest prefix made only of characters in `cs`. */
  function StripStart(s: string, cs: set<char>): (r: string)
    ensures |r| <= |s| && r == s[|s| - |r|..]
    ensures forall i :: 0 <= i < |s| - |r| ==> s[i] in cs
    ensures r == [] || r[0] !in cs
  {
    if s != [] && s[0] in cs then StripStart(s[1..], cs) else s
  }

  /** Drops the longest suffix made only of characters in `cs`. */
  function StripEnd(s: string, cs: set<char>): (r: string)
    ensures |r| <= |s| && r == s[..|r|]
    ensures forall i :: |r| <= i < |s| ==> s[i] in cs
    ensures r == [] || r[|r| - 1] !in cs
  {
    if s != [] && s[|s| - 1] in cs then StripEnd(s[..|s| - 1], cs) else s
  }

  /** Both ends: JavaScript's `trim` when `cs` is `Spaces`, lodash's
      `_.trim(s, chars)` when `cs` is the set of `chars`. */
  function Strip(s: string, cs: set<char>): (r: string)
    ensures r == [] || (r[0] !in cs && r[|r| - 1] !in cs)
    ensures r == [] <==> forall i :: 0 <= i < |s| ==> s[i] in cs
  {
    var t := StripStart(s, cs);
    var r := StripEnd(t, cs);
    assert r == [] ==> t == [];
    r
  }

  /** What is stripped is a prefix and a suffix of stripped characters. */
  lemma StripSlice(s: string, cs: set<char>)
    ensures StrippedSlice(s, Strip(s, cs), cs)
  {
    var t := StripStart(s, cs);
    var r := StripEnd(t, cs);
    assert Strip(s, cs) == r;
    SliceOfSuffix(s, t, r, cs);
  }

  /** A prefix `r` of a suffix `t` of `s`, with only characters of `cs`
      dropped on either side, is a stripped slice of `s`. */
  lemma SliceOfSuffix(s: string, t: string, r: string, cs: set<char>)
    requires |t| <= |s| && t == s[|s| - |t|..]
    requires forall i :: 0 <= i < |s| - |t| ==> s[i] in cs
    requires |r| <= |t| && r == t[..|r|]
    requires forall i :: |r| <= i < |t| ==> t[i] in cs
    ensures StrippedSlice(s, r, cs)
  {
    var a := |s| - |t|;
    var b := a + |r|;
    assert r == s[a..b] by {
      forall k | 0 <= k < |r| ensures r[k] == s[a + k] {
        assert r[k] == t[k];
      }
    }
    forall i | b <= i < |s| ensures s[i] in cs {
      assert s[i] == t[i - a];
    }
  }

  /** `r` is `s` with a prefix and a suffix made only of characters in `cs`
      removed. */
  predicate StrippedSlice(s: string, r: string, cs: set<char>)
  {
    exists a, b ::
      0 <= a <= b <= |s| && r == s[a..b]
      && (forall i :: 0 <= i < a ==> s[i] in cs)
      && (forall i :: b <= i < |s| ==> s[i] in cs)
  }

  function Trim(s: string): string
  {
    Strip(s, Spaces)
  }

  /** Stripping keeps only characters of the text. */
  lemma StripWithout(s: string, cs: set<char>, c: char)
    requires c !in s
    ensures c !in Strip(s, cs)
  {
    var t := StripStart(s, cs);
    assert c !in t by {
      assert t == s[|s| - |t|..];
    }
    var r := StripEnd(t, cs);
    assert c !in r by {
      assert r == t[..|r|];
    }
    assert Strip(s, cs) == r;
  }

  /** Stripping twice strips nothing more. */
  lemma StripIdempotent(s: string, cs: set<char>)
    ensures Strip(Strip(s, cs), cs) == Strip(s, cs)
  {
    var r := Strip(s, cs);
    if r != [] {
      assert StripStart(r, cs) == r;
      assert StripEnd(r, cs) == r;
    }
  }

  /** Skipping a prefix of characters of `cs` that ends before a character
      outside `cs`. */
  lemma {:induction false} StripStartPrefix(pre: string, x: string, cs: set<char>)
    requires forall k :: 0 <= k < |pre| ==> pre[k] in cs
    requires x == [] || x[0] !in cs
    ensures StripStart(pre + x, cs) == x
  {
    if pre != [] {
      assert (pre + x)[1..] == pre[1..] + x;
      StripStartPrefix(pre[1..], x, cs);
    } else {
      assert pre + x == x;
    }
  }

  // ---------------------------------------------------------------------
  // Searching

  predicate OccursAt(s: string, sub: string, i: int)
  {
    0 <= i && i + |sub| <= |s| && s[i..i + |sub|] == sub
  }

  function IndexOfFrom(s: string, sub: string, from: nat): (r: int)
    ensures r == -1 || (from <= r && OccursAt(s, sub, r))
    ensures forall i :: from <= i && (r == -1 || i < r) ==> !OccursAt(s, sub, i)
    decreases |s| - from
  {
    if from + |sub| > |s| then -1
    else if s[from..from + |sub|] == sub then from
    else IndexOfFrom(s, sub, from + 1)
  }

  /** JavaScript's `s.indexOf(sub)`: the first position where `sub` occurs,
      or -1 when it occurs nowhere. */
  function IndexOf(s: string, sub: string): (r: int)
    ensures r >= 0 ==> OccursAt(s, sub, r) && forall i :: 0 <= i < r ==> !OccursAt(s, sub, i)
    ensures r == -1 <==> forall i :: !OccursAt(s, sub, i)
    ensures r >= -1
  {
    IndexOfFrom(s, sub, 0)
  }

  /** The first position of character `c` in `s`. */
  function FirstIndex(s: string, c: char): (i: nat)
    requires c in s
    ensures i < |s| && s[i] == c && c !in s[..i]
  {
    if s[0] == c then 0
    else
      var j := FirstIndex(s[1..], c);
      assert s[1..][..j] == s[1..j + 1];
      1 + j
  }

  // ---------------------------------------------------------------------
  // Splitting on one character

  /** JavaScript's `s.split(sep)` for a one-character separator. */
  function Split(s: string, sep: char): (parts: seq<string>)
    ensures |parts| >= 1
    ensures forall k :: 0 <= k < |parts| ==> sep !in parts[k]
    ensures |parts| == 1 <==> sep !in s
    decreases |s|
  {
    if sep !in s then [s]
    else
      var i := FirstIndex(s, sep);
      var rest := Split(s[i + 1..], sep);
      var parts := [s[..i]] + rest;
      assert parts[1..] == rest;
      parts
  }

  /** `parts.join(sep)`, the inverse of `Split`. */
  function Join(parts: seq<string>, sep: char): string
    requires |parts| >= 1
  {
    if |parts| == 1 then parts[0] else parts[0] + [sep] + Join(parts[1..], sep)
  }

  /** The parts of a split hold only characters of the text. */
  lemma {:induction false} SplitPartWithout(s: string, sep: char, c: char, k: nat)
    requires c !in s && k < |Split(s, sep)|
    ensures c !in Split(s, sep)[k]
    decreases |s|
  {
    if sep !in s {
      SplitNone(s, sep);
    } else {
      var i := FirstIndex(s, sep);
      var t := s[i + 1..];
      SplitFirst(s, sep);
      if k == 0 {
        SliceWithout(s, c, 0, i);
      } else {
        SliceWithout(s, c, i + 1, |s|);
        PartAfterHead(s[..i], Split(t, sep), k);
        SplitPartWithout(t, sep, c, k - 1);
      }
    }
  }

  /** A slice holds no character its text lacks. */
  lemma SliceWithout(s: string, c: char, a: nat, b: nat)
    requires a <= b <= |s| && c !in s
    ensures c !in s[a..b]
  {
  }

  /** Part `k` after a head part is part `k - 1` of the rest. */
  lemma PartAfterHead(head: string, rest: seq<string>, k: nat)
    requires 0 < k <= |rest|
    ensures ([head] + rest)[k] == rest[k - 1]
  {
  }

  /** Joining the parts of a split gives the text back. */
  lemma {:induction false} JoinSplit(s: string, sep: char)
    ensures Join(Split(s, sep), sep) == s
    decreases |s|
  {
    if sep in s {
      var i := FirstIndex(s, sep);
      var parts := Split(s, sep);
      assert parts == [s[..i]] + Split(s[i + 1..], sep);
      assert parts[1..] == Split(s[i + 1..], sep);
      JoinSplit(s[i + 1..], sep);
      assert s == s[..i] + [sep] + s[i + 1..];
    }
  }

  /** Splitting a text without the separator gives the text alone. */
  lemma SplitNone(s: string, sep: char)
    requires sep !in s
    ensures Split(s, sep) == [s]
  {
  }

  /** Splitting "a<sep>b" when `a` has no separator: `a`, then the parts of
      `b`. */
  lemma SplitCons(a: string, sep: char, b: string)
    requires sep !in a
    ensures Split(a + [sep] + b, sep) == [a] + Split(b, sep)
  {
    var s := a + [sep] + b;
    FirstIndexAfter(a, sep, b);
    SplitFirst(s, sep);
    assert s[..|a|] == a && s[|a| + 1..] == b;
  }

  /** The first part of "n" or "n<sep>rest" is `n`. */
  lemma SplitHead(n: string, rest: string, sep: char)
    requires sep !in n && (rest == [] || rest[0] == sep)
    ensures Split(n + rest, sep)[0] == n
  {
    if rest == [] {
      assert n + rest == n;
      SplitNone(n, sep);
    } else {
      assert n + rest == n + [sep] + rest[1..];
      SplitCons(n, sep, rest[1..]);
    }
  }

  /** The second part of "prefix<sep>n" or "prefix<sep>n<sep>rest". */
  lemma SplitSecond(s: string, prefix: string, n: string, rest: string, sep: char)
    requires sep !in prefix && sep !in n && (rest == [] || rest[0] == sep)
    requires s == prefix + [sep] + n + rest
    ensures |Split(s, sep)| >= 2 && Split(s, sep)[1] == n
  {
    var tail := n + rest;
    assert s == prefix + [sep] + tail;
    SplitCons(prefix, sep, tail);
    SplitHead(n, rest, sep);
  }

  /** The first part of a split is everything before the first separator,
      and the remaining parts are the split of what follows it. */
  lemma SplitFirst(s: string, sep: char)
    requires sep in s
    ensures var i := FirstIndex(s, sep);
      Split(s, sep) == [s[..i]] + Split(s[i + 1..], sep)
  {
  }

  /** The first `c` in `a + [c] + b` is the one after `a` when `a` has none. */
  lemma FirstIndexAfter(a: string, c: char, b: string)
    requires c !in a
    ensures FirstIndex(a + [c] + b, c) == |a|
  {
    var s := a + [c] + b;
    var i := FirstIndex(s, c);
    assert forall k :: 0 <= k < |a| ==> s[k] == a[k];
    assert s[|a|] == c;
    assert forall k :: 0 <= k < i ==> s[..i][k] == s[k];
  }

  /** Splitting a join of separator-free parts gives the parts back. */
  lemma {:induction false} SplitJoin(parts: seq<string>, sep: char)
    requires |parts| >= 1
    requires forall k :: 0 <= k < |parts| ==> sep !in parts[k]
    ensures Split(Join(parts, sep), sep) == parts
  {
    if |parts| == 1 {
      SplitNone(parts[0], sep);
    } else {
      SplitCons(parts[0], sep, Join(parts[1..], sep));
      SplitJoin(parts[1..], sep);
      assert parts == [parts[0]] + parts[1..];
    }
  }

  // ---------------------------------------------------------------------
  // Digits and numbers

  /** The value of a digit character in bases up to 36; 36 for any other
      character. */
  function DigitValue(c: char): nat
  {
    if '0' <= c <= '9' then c as int - '0' as int
    else if 'a' <= c <= 'z' then c as int - 'a' as int + 10
    else if 'A' <= c <= 'Z' then c as int - 'A' as int + 10
    else 36
  }

  /** The length of the longest prefix of `s` made of digits of `radix`. */
  function DigitRun(s: string, radix: nat): (n: nat)
    ensures n <= |s|
    ensures forall i :: 0 <= i < n ==> DigitValue(s[i]) < radix
    ensures n == |s| || DigitValue(s[n]) >= radix
  {
    if s == [] || DigitValue(s[0]) >= radix then 0 else 1 + DigitRun(s[1..], radix)
  }

  /** The value of a digit string in `radix`, most significant digit first. */
  function DigitsValue(s: string, radix: nat): nat
  {
    if s == [] then 0
    else DigitsValue(s[..|s| - 1], radix) * radix + DigitValue(s[|s| - 1])
  }

  /** What `parseInt` reads after the sign: a hexadecimal digit run after
      a `0x`/`0X` prefix, a decimal one otherwise; `None` when the run is
      empty. */
  function ParseDigits(u: string): Option<int>
  {
    var hex := |u| >= 2 && u[0] == '0' && (u[1] == 'x' || u[1] == 'X');
    var radix := if hex then 16 else 10;
    var body := if hex then u[2..] else u;
    var n := DigitRun(body, radix);
    if n == 0 then None else Some(DigitsValue(body[..n], radix))
  }

  /** What `parseInt` reads once leading white space is skipped: an
      optional sign, then the digits (see `ParseDigits`). */
  function ParseSigned(t: string): Option<int>
  {
    var negative := t != [] && t[0] == '-';
    var u := if t != [] && (t[0] == '-' || t[0] == '+') then t[1..] else t;
    var d := ParseDigits(u);
    if negative && d.Some? then Some(-d.value) else d
  }

  /** ECMAScript `parseInt(s)` with no radix, `None` standing for NaN: skip
      leading white space, read an optional sign, then a hexadecimal digit
      run after a `0x`/`0X` prefix or a decimal one otherwise, NaN when that
      run is empty. Rounding to a double is not modelled. */
  function ParseInt(s: string): (r: Option<int>)
    ensures r.Some? ==> HasDecimalDigit(s)
  {
    ParseSignedNeedsDigit(StripStart(s, Spaces));
    var t := StripStart(s, Spaces);
    assert forall k :: 0 <= k < |t| ==> t[k] == s[|s| - |t| + k];
    ParseSigned(t)
  }

  predicate HasDecimalDigit(s: string)
  {
    exists k :: 0 <= k < |s| && '0' <= s[k] <= '9'
  }

  /** A number is read only where a decimal digit is: a decimal run starts
      with one and a hexadecimal prefix starts with `0`. */
  lemma ParseSignedNeedsDigit(t: string)
    ensures ParseSigned(t).Some? ==> HasDecimalDigit(t)
  {
    var u := if t != [] && (t[0] == '-' || t[0] == '+') then t[1..] else t;
    if ParseDigits(u).Some? {
      var hex := |u| >= 2 && u[0] == '0' && (u[1] == 'x' || u[1] == 'X');
      var k := if u == t then 0 else 1;
      if !hex {
        assert DigitRun(u, 10) > 0;
        assert DigitValue(u[0]) < 10;
      }
      assert t[k] == u[0];
    }
  }

  /** The decimal digits of `n`, without leading zeros. */
  function NatText(n: nat): (t: string)
    ensures |t| >= 1
    ensures forall i :: 0 <= i < |t| ==> DigitValue(t[i]) < 10 && '0' <= t[i] <= '9'
    ensures t[0] == '0' ==> n == 0
  {
    var d := ('0' as int + n % 10) as char;
    if n < 10 then [d] else NatText(n / 10) + [d]
  }

  /** The decimal form of an integer, as JavaScript writes it. */
  function IntText(i: int): string
  {
    if i < 0 then "-" + NatText(-i) else NatText(i)
  }

  /** `${x}` for a number `x` that came from `parseInt`. */
  function NumberText(x: Option<int>): string
  {
    match x
    case None => "NaN"
    case Some(i) => IntText(i)
  }

  lemma {:induction false} NatTextValue(n: nat)
    ensures DigitsValue(NatText(n), 10) == n
  {
    var t := NatText(n);
    if n >= 10 {
      NatTextValue(n / 10);
      assert t[..|t| - 1] == NatText(n / 10);
    }
  }

  /** A digit run ends where the first non-digit starts. */
  lemma {:induction false} DigitRunOfPrefix(d: string, rest: string, radix: nat)
    requires forall i :: 0 <= i < |d| ==> DigitValue(d[i]) < radix
    requires rest == [] || DigitValue(rest[0]) >= radix
    ensures DigitRun(d + rest, radix) == |d|
  {
    if d != [] {
      assert (d + rest)[1..] == d[1..] + rest;
      DigitRunOfPrefix(d[1..], rest, radix);
    } else {
      assert d + rest == rest;
    }
  }

  /** The digits of a natural number, followed by text that starts with
      neither a digit nor `x`/`X`, read back as that number. */
  lemma ParseDigitsOfText(n: nat, rest: string)
    requires rest == [] || (DigitValue(rest[0]) >= 10 && rest[0] != 'x' && rest[0] != 'X')
    ensures ParseDigits(NatText(n) + rest) == Some(n)
  {
    var d := NatText(n);
    var u := d + rest;
    assert !(|u| >= 2 && u[0] == '0' && (u[1] == 'x' || u[1] == 'X')) by {
      if |u| >= 2 && u[0] == '0' {
        assert |d| == 1;
        assert u[1] == rest[0];
      }
    }
    DigitRunOfPrefix(d, rest, 10);
    assert u[..|d|] == d;
    NatTextValue(n);
  }

  /** `parseInt` reads back the decimal form of an integer, whatever white
      space precedes it and whatever non-digit text follows it. */
  lemma ParseIntOfText(ws: string, i: int, rest: string)
    requires forall k :: 0 <= k < |ws| ==> ws[k] in Spaces
    requires rest == [] || (DigitValue(rest[0]) >= 10 && rest[0] != 'x' && rest[0] != 'X')
    ensures ParseInt(ws + IntText(i) + rest) == Some(i)
  {
    var t := IntText(i);
    var x := t + rest;
    ConcatShape(ws, t, rest);
    assert StripStart(ws + x, Spaces) == x by {
      IntTextStart(i);
      StripStartPrefix(ws, x, Spaces);
    }
    assert ParseSigned(x) == Some(i) by {
      ParseSignedOfText(x, i, rest);
    }
  }

  /** Concatenation regroups freely, and a non-empty text keeps its first
      character in front of anything appended. */
  lemma ConcatShape(a: string, b: string, c: string)
    ensures a + b + c == a + (b + c)
    ensures b != [] ==> (b + c)[0] == b[0]
  {
  }

  /** The decimal form holds only digits and a leading minus sign. */
  lemma IntTextWithout(i: int, c: char)
    requires c != '-' && !('0' <= c <= '9')
    ensures c !in IntText(i)
  {
    var t := IntText(i);
    if i < 0 {
      assert forall k :: 1 <= k < |t| ==> t[k] == NatText(-i)[k - 1];
    }
  }

  lemma IntTextStart(i: int)
    ensures IntText(i)[0] == '-' || '0' <= IntText(i)[0] <= '9'
    ensures IntText(i)[0] !in Spaces
  {
  }

  lemma ParseSignedOfText(s: string, i: int, rest: string)
    requires s == IntText(i) + rest
    requires rest == [] || (DigitValue(rest[0]) >= 10 && rest[0] != 'x' && rest[0] != 'X')
    ensures ParseSigned(s) == Some(i)
  {
    if i < 0 {
      ParseSignedNegative(s, i, rest);
    } else {
      ParseSignedNonNegative(s, i, rest);
    }
  }

  lemma ParseSignedNegative(s: string, i: int, rest: string)
    requires i < 0 && s == IntText(i) + rest
    requires rest == [] || (DigitValue(rest[0]) >= 10 && rest[0] != 'x' && rest[0] != 'X')
    ensures ParseSigned(s) == Some(i)
  {
    var n: nat := -i;
    var u := NatText(n) + rest;
    assert IntText(i) == "-" + NatText(n);
    ConcatShape("-", NatText(n), rest);
    assert ParseDigits(u) == Some(n) by {
      ParseDigitsOfText(n, rest);
    }
    ParseSignedMinus(u);
  }

  /** A leading minus sign negates what the digits after it read. */
  lemma ParseSignedMinus(u: string)
    ensures ParseSigned("-" + u) ==
      match ParseDigits(u)
      case Some(v) => Some(-v)
      case None => None
  {
    assert ("-" + u)[1..] == u;
  }

  lemma ParseSignedNonNegative(s: string, i: int, rest: string)
    requires i >= 0 && s == IntText(i) + rest
    requires rest == [] || (DigitValue(rest[0]) >= 10 && rest[0] != 'x' && rest[0] != 'X')
    ensures ParseSigned(s) == Some(i)
  {
    var n: nat := i;
    assert s == NatText(n) + rest;
    assert s[0] == NatText(n)[0];
    ParseDigitsOfText(n, rest);
  }

  /** The decimal form of a parsed number parses back to that number: NaN
      included, since "NaN" has no digit. */
  lemma NumberTextRoundTrip(x: Option<int>)
    ensures ParseInt(NumberText(x)) == x
  {
    match x
    case None =>
      var s := NumberText(x);
      assert s[0] == 'N' && DigitValue(s[0]) >= 10;
      StripStartPrefix("", s, Spaces);
      assert "" + s == s;
      ParseIntNoLeadingDigit(s);
    case Some(i) =>
      var s := IntText(i);
      assert s == "" + IntText(i) + "";
      ParseIntOfText("", i, "");
  }

  /** Text whose first non-space character is neither a sign nor a digit
      parses to NaN. */
  lemma ParseIntNoLeadingDigit(s: string)
    requires var t := StripStart(s, Spaces);
      t == [] || (t[0] != '+' && t[0] != '-' && DigitValue(t[0]) >= 10)
    ensures ParseInt(s) == None
  {
    ParseSignedNoLeadingDigit(StripStart(s, Spaces));
  }

  lemma ParseSignedNoLeadingDigit(t: string)
    requires t == [] || (t[0] != '+' && t[0] != '-' && DigitValue(t[0]) >= 10)
    ensures ParseSigned(t) == None
  {
    assert t == [] || t[0] != '0';
    assert DigitRun(t, 10) == 0;
  }
}
