/** The few Python `str` operations the Hadoop streaming scripts rely on, restricted to
    ASCII: `isspace`, `strip`, `rstrip("\n")`, `lower`, `split(sep)`, `split(sep, 1)`,
    `int(...)` and `"%d"` formatting. */
module PyText {
  import opened Maybe

  /** `c.isspace()` for the ASCII range: space, \t, \n, \v, \f, \r and the separators \x1c-\x1f. */
  predicate IsSpace(c: char)
  {
    c == ' ' || c == '\t' || c == '\n' || c == '\r' || c == '\U{0B}' || c == '\U{0C}'
    || ('\U{1C}' <= c <= '\U{1F}')
  }

  predicate IsDigit(c: char)
  {
    '0' <= c <= '9'
  }

  predicate AllDigits(s: string)
  {
    forall i :: 0 <= i < |s| ==> IsDigit(s[i])
  }

  /** The whitespace `int()` skips around an ASCII number: space, \t, \n, \v, \f and \r
      (C's `isspace`). The separators \x1c-\x1f, which `isspace()` and `strip()` count as
      whitespace, make `int()` fail. */
  predicate IsIntSpace(c: char)
  {
    c == ' ' || c == '\t' || c == '\n' || c == '\r' || c == '\U{0B}' || c == '\U{0C}'
  }

  /** Leading characters of the class `ws` removed (`lstrip()` for `IsSpace`). */
  function TrimStart(s: string, ws: char -> bool): (r: string)
    ensures |r| <= |s| && r == s[|s| - |r|..]
    ensures r == [] || !ws(r[0])
    ensures forall i :: 0 <= i < |s| - |r| ==> ws(s[i])
    decreases |s|
  {
    if |s| > 0 && ws(s[0]) then TrimStart(s[1..], ws) else s
  }

  /** Trailing characters of the class `ws` removed (`rstrip()` for `IsSpace`). */
  function TrimEnd(s: string, ws: char -> bool): (r: string)
    ensures |r| <= |s| && r == s[..|r|]
    ensures r == [] || !ws(r[|r| - 1])
    ensures forall i :: |r| <= i < |s| ==> ws(s[i])
    decreases |s|
  {
    if |s| > 0 && ws(s[|s| - 1]) then TrimEnd(s[..|s| - 1], ws) else s
  }

  /** `r` is the slice `s[i..j]`, and everything before `i` and from `j` on is in the
      class `ws`. */
  predicate CutFrom(s: string, r: string, i: int, j: int, ws: char -> bool)
  {
    0 <= i <= j <= |s| && r == s[i..j] &&
    (forall k :: 0 <= k < i ==> ws(s[k])) &&
    (forall k :: j <= k < |s| ==> ws(s[k]))
  }

  /** `s.strip()`: the longest middle slice of `s` that neither starts nor ends with
      whitespace; everything cut on either side is whitespace. */
  function Strip(s: string): (r: string)
    ensures r == [] || (!IsSpace(r[0]) && !IsSpace(r[|r| - 1]))
    ensures |r| <= |s|
    ensures exists i, j :: CutFrom(s, r, i, j, IsSpace)
  {
    hide TrimStart, TrimEnd, CutFrom;
    TrimBothSlice(s, IsSpace);
    TrimStart(TrimEnd(s, IsSpace), IsSpace)
  }

  /** Trimming both ends cuts a slice out of `s` with only class characters around it. */
  lemma TrimBothSlice(s: string, ws: char -> bool)
    ensures var e := TrimEnd(s, ws);
      var r := TrimStart(e, ws);
      |e| <= |s| && CutFrom(s, r, |e| - |r|, |e|, ws)
  {
    hide TrimStart, TrimEnd;
    var e := TrimEnd(s, ws);
    var r := TrimStart(e, ws);
    forall k | 0 <= k < |e| - |r| ensures ws(s[k]) {
      assert s[k] == e[k];
    }
  }

  /** A string with no `ws` character at either end is left alone by trimming both ends. */
  lemma TrimClean(x: string, ws: char -> bool)
    requires x == [] || (!ws(x[0]) && !ws(x[|x| - 1]))
    ensures TrimStart(TrimEnd(x, ws), ws) == x
  {
  }

  /** A string that neither starts nor ends with whitespace is left alone by `strip()`. */
  lemma StripClean(x: string)
    requires x == [] || (!IsSpace(x[0]) && !IsSpace(x[|x| - 1]))
    ensures Strip(x) == x
  {
    TrimClean(x, IsSpace);
  }

  /** ... even with a newline appended. */
  lemma StripCleanLine(x: string)
    requires x == [] || (!IsSpace(x[0]) && !IsSpace(x[|x| - 1]))
    ensures Strip(x + "\n") == x
  {
    assert (x + "\n")[..|x|] == x;
    assert TrimEnd(x + "\n", IsSpace) == TrimEnd(x, IsSpace);
    StripClean(x);
  }

  /** `s.rstrip("\n")`: every trailing newline removed (not just one). */
  function RStripNewlines(s: string): (r: string)
    ensures |r| <= |s| && r == s[..|r|]
    ensures r == [] || r[|r| - 1] != '\n'
    ensures forall i :: |r| <= i < |s| ==> s[i] == '\n'
    decreases |s|
  {
    if |s| > 0 && s[|s| - 1] == '\n' then RStripNewlines(s[..|s| - 1]) else s
  }

  function LowerChar(c: char): (d: char)
  {
    if 'A' <= c <= 'Z' then (c as int + 32) as char else c
  }

  /** `s.lower()` on ASCII letters; every other character is kept. */
  function Lower(s: string): (r: string)
    ensures |r| == |s|
    ensures forall i :: 0 <= i < |s| ==> r[i] == LowerChar(s[i])
    ensures forall i :: 0 <= i < |r| ==> !('A' <= r[i] <= 'Z')
  {
    seq(|s|, i requires 0 <= i < |s| => LowerChar(s[i]))
  }

  /** Number of occurrences of `c` in `s`. */
  function Count(s: string, c: char): nat
  {
    if |s| == 0 then 0 else (if s[0] == c then 1 else 0) + Count(s[1..], c)
  }

  /** `sep.join(parts)` */
  function Join(parts: seq<string>, sep: char): string
    requires |parts| > 0
  {
    if |parts| == 1 then parts[0] else parts[0] + [sep] + Join(parts[1..], sep)
  }

  /** `s.split(sep)` for a one-character separator: one more piece than separators, and no
      piece contains the separator. */
  function Split(s: string, sep: char): (parts: seq<string>)
    ensures |parts| == Count(s, sep) + 1
    decreases |s|
  {
    if |s| == 0 then [""]
    else
      var rest := Split(s[1..], sep);
      if s[0] == sep then [""] + rest
      else [[s[0]] + rest[0]] + rest[1..]
  }

  /** No piece of a split contains the separator. */
  lemma {:induction false} SplitSepFree(s: string, sep: char)
    ensures forall k :: 0 <= k < |Split(s, sep)| ==> sep !in Split(s, sep)[k]
    decreases |s|
  {
    if |s| > 0 {
      SplitSepFree(s[1..], sep);
      var rest := Split(s[1..], sep);
      if s[0] != sep {
        assert sep !in [s[0]] + rest[0];
        var parts := Split(s, sep);
        forall k | 0 <= k < |parts| ensures sep !in parts[k] {
          if k > 0 { assert parts[k] == rest[k]; }
        }
      }
    }
  }

  lemma JoinCons(parts: seq<string>, sep: char)
    requires |parts| > 1
    ensures Join(parts, sep) == parts[0] + [sep] + Join(parts[1..], sep)
  {
  }

  /** Joining the pieces of a split with the same separator gives back the string. */
  lemma {:induction false} JoinSplit(s: string, sep: char)
    ensures Join(Split(s, sep), sep) == s
    decreases |s|
  {
    if |s| > 0 {
      var c, t := s[0], s[1..];
      assert s == [c] + t;
      var rest := Split(t, sep);
      var parts := Split(s, sep);
      JoinSplit(t, sep);
      if c == sep {
        assert parts == [""] + rest;
        JoinCons(parts, sep);
        assert parts[1..] == rest;
      } else if |rest| == 1 {
        assert parts == [[c] + rest[0]];
        assert Join(rest, sep) == rest[0];
      } else {
        assert parts == [[c] + rest[0]] + rest[1..];
        JoinCons(parts, sep);
        JoinCons(rest, sep);
        assert parts[1..] == rest[1..];
        assert ([c] + rest[0]) + [sep] + Join(rest[1..], sep) == [c] + (rest[0] + [sep] + Join(rest[1..], sep));
      }
    }
  }

  lemma SplitCons(c: char, t: string, sep: char)
    ensures Split([c] + t, sep) ==
      if c == sep then [""] + Split(t, sep)
      else [[c] + Split(t, sep)[0]] + Split(t, sep)[1..]
  {
    assert ([c] + t)[1..] == t;
  }

  lemma JoinHead(parts: seq<string>, sep: char)
    requires |parts| > 0 && |parts[0]| > 0
    ensures Join(parts, sep) == [parts[0][0]] + Join([parts[0][1..]] + parts[1..], sep)
  {
    var p := parts[0];
    var shorter := [p[1..]] + parts[1..];
    assert [p[0]] + p[1..] == p;
    if |parts| > 1 {
      JoinCons(parts, sep);
      JoinCons(shorter, sep);
      assert shorter[1..] == parts[1..];
    }
  }

  /** The other direction: splitting a join of separator-free pieces gives back the pieces. */
  lemma {:induction false} SplitJoin(parts: seq<string>, sep: char)
    requires |parts| > 0
    requires forall k :: 0 <= k < |parts| ==> sep !in parts[k]
    ensures Split(Join(parts, sep), sep) == parts
    decreases |Join(parts, sep)|
  {
    hide Split, Join;
    var p := parts[0];
    if |p| > 0 {
      var shorter := [p[1..]] + parts[1..];
      JoinHead(parts, sep);
      forall k | 0 <= k < |shorter| ensures sep !in shorter[k] {
        if k > 0 {
          assert shorter[k] == parts[k];
        } else {
          assert forall m :: 0 <= m < |p[1..]| ==> p[1..][m] == p[m + 1];
        }
      }
      SplitJoin(shorter, sep);
      assert p[0] != sep;
      SplitCons(p[0], Join(shorter, sep), sep);
      assert [p[0]] + p[1..] == p;
      assert parts == [p] + parts[1..];
    } else if |parts| > 1 {
      JoinCons(parts, sep);
      assert Join(parts, sep) == [sep] + Join(parts[1..], sep);
      forall k | 0 <= k < |parts[1..]| ensures sep !in parts[1..][k] {
        assert parts[1..][k] == parts[k + 1];
      }
      SplitJoin(parts[1..], sep);
      SplitCons(sep, Join(parts[1..], sep), sep);
      assert [""] + parts[1..] == parts;
    } else {
      JoinOne(parts, sep);
      SplitEmpty(sep);
      assert parts == [""];
    }
  }

  lemma JoinOne(parts: seq<string>, sep: char)
    requires |parts| == 1
    ensures Join(parts, sep) == parts[0]
  {
  }

  lemma SplitEmpty(sep: char)
    ensures Split("", sep) == [""]
  {
  }

  /** `s.split(sep, 1)` unpacked into exactly two names: `None` where Python's unpacking
      raises (no separator), otherwise the text before the first separator and the rest. */
  function SplitAtFirst(s: string, sep: char): (r: Option<(string, string)>)
    ensures r.None? <==> sep !in s
    ensures r.Some? ==> s == r.value.0 + [sep] + r.value.1 && sep !in r.value.0
    decreases |s|
  {
    if |s| == 0 then None
    else if s[0] == sep then Some(([], s[1..]))
    else
      match SplitAtFirst(s[1..], sep)
      case None => None
      case Some((a, b)) => Some(([s[0]] + a, b))
  }

  /** `split(sep, 1)` of a string built around a separator-free prefix gives that prefix
      and the rest back. */
  lemma {:induction false} SplitAtFirstOf(a: string, b: string, sep: char)
    requires sep !in a
    ensures SplitAtFirst(a + [sep] + b, sep) == Some((a, b))
    decreases |a|
  {
    var s := a + [sep] + b;
    if |a| > 0 {
      SplitAtFirstOf(a[1..], b, sep);
      assert s[1..] == a[1..] + [sep] + b;
      assert [a[0]] + a[1..] == a;
    } else {
      assert s[1..] == b;
    }
  }

  /** The value of a non-empty digit string, most significant digit first. */
  function DigitsValue(s: string): nat
    requires AllDigits(s)
  {
    if |s| == 0 then 0 else 10 * DigitsValue(s[..|s| - 1]) + (s[|s| - 1] as int - '0' as int)
  }

  /** `"%d" % n` for a natural number. */
  function NatToString(n: nat): (s: string)
    ensures |s| > 0 && AllDigits(s)
    ensures |s| > 1 ==> s[0] != '0'
    ensures s[0] == '0' <==> n == 0
  {
    if n < 10 then ['0' + n as char]
    else NatToString(n / 10) + ['0' + (n % 10) as char]
  }

  /** `"%d" % n`: a minus sign for negative numbers, then the decimal digits. */
  function IntToString(n: int): (s: string)
    ensures |s| > 0 && (s[0] == '-' || IsDigit(s[0])) && IsDigit(s[|s| - 1])
    ensures s[0] == '-' <==> n < 0
    ensures var d := if n < 0 then s[1..] else s;
      |d| > 0 && AllDigits(d) && (|d| > 1 ==> d[0] != '0')
  {
    if n < 0 then "-" + NatToString(-n) else NatToString(n)
  }

  /** `int(s)` restricted to an optional sign and ASCII decimal digits, with the
      surrounding `IsIntSpace` characters ignored; `None` where Python raises `ValueError`. */
  function ParseInt(s: string): Option<int>
  {
    ParseSigned(TrimStart(TrimEnd(s, IsIntSpace), IsIntSpace))
  }

  /** An optional `+` or `-`, then at least one digit and nothing else. */
  function ParseSigned(t: string): Option<int>
  {
    if |t| > 0 && (t[0] == '-' || t[0] == '+') then
      var ds := t[1..];
      if |ds| > 0 && AllDigits(ds) then
        Some(if t[0] == '-' then -(DigitsValue(ds) as int) else DigitsValue(ds))
      else None
    else if |t| > 0 && AllDigits(t) then Some(DigitsValue(t))
    else None
  }

  /** Trimming the end of `a + w` cuts exactly `w` when `w` is all in the class and `a`
      ends outside it. */
  lemma TrimEndSuffix(a: string, w: string, ws: char -> bool)
    requires |a| > 0 && !ws(a[|a| - 1])
    requires forall c :: c in w ==> ws(c)
    ensures TrimEnd(a + w, ws) == a
  {
    var s := a + w;
    var r := TrimEnd(s, ws);
    assert s[|a| - 1] == a[|a| - 1];
    assert forall k :: |a| <= k < |s| ==> s[k] == w[k - |a|];
    assert r == s[..|a|] == a;
  }

  /** Trimming the start of `w + a` cuts exactly `w` when `w` is all in the class and `a`
      starts outside it. */
  lemma TrimStartPrefix(w: string, a: string, ws: char -> bool)
    requires |a| > 0 && !ws(a[0])
    requires forall c :: c in w ==> ws(c)
    ensures TrimStart(w + a, ws) == a
  {
    var s := w + a;
    var r := TrimStart(s, ws);
    assert s[|w|] == a[0];
    assert forall k :: 0 <= k < |w| ==> s[k] == w[k];
    assert r == s[|w|..] == a;
  }

  /** An optional sign and a run of digits, with nothing around them. */
  lemma SignedDigits(sign: string, ds: string)
    requires sign == "" || sign == "+" || sign == "-"
    requires |ds| > 0 && AllDigits(ds)
    ensures var core := sign + ds;
      && !IsIntSpace(core[0]) && !IsIntSpace(core[|core| - 1])
      && ParseSigned(core) == Some(if sign == "-" then -(DigitsValue(ds) as int) else DigitsValue(ds))
  {
    hide DigitsValue;
    var core := sign + ds;
    assert core[|core| - 1] == ds[|ds| - 1];
    if sign == "" {
      assert core == ds;
    } else {
      assert core[1..] == ds;
    }
  }

  lemma SeqAssoc(x: string, y: string, z: string)
    ensures x + y + z == x + (y + z)
  {
  }

  /** `int()`-whitespace on both sides of a core with clean edges is exactly what
      trimming cuts. */
  lemma TrimIntSpaceAround(w1: string, core: string, w2: string)
    requires forall c :: c in w1 ==> IsIntSpace(c)
    requires forall c :: c in w2 ==> IsIntSpace(c)
    requires |core| > 0 && !IsIntSpace(core[0]) && !IsIntSpace(core[|core| - 1])
    ensures TrimStart(TrimEnd(w1 + core + w2, IsIntSpace), IsIntSpace) == core
  {
    hide TrimStart, TrimEnd;
    var front := w1 + core;
    assert front[|front| - 1] == core[|core| - 1];
    TrimEndSuffix(front, w2, IsIntSpace);
    TrimStartPrefix(w1, core, IsIntSpace);
  }

  lemma ParseIntOf(s: string, core: string)
    requires TrimStart(TrimEnd(s, IsIntSpace), IsIntSpace) == core
    ensures ParseInt(s) == ParseSigned(core)
  {
  }

  /** `int()` reads an optional sign and a run of digits, whatever `int()`-whitespace
      surrounds them: leading zeros, `+` and `-0` included (`int(" +007\n") == 7`). */
  lemma ParseIntAccepts(w1: string, sign: string, ds: string, w2: string)
    requires forall c :: c in w1 ==> IsIntSpace(c)
    requires forall c :: c in w2 ==> IsIntSpace(c)
    requires sign == "" || sign == "+" || sign == "-"
    requires |ds| > 0 && AllDigits(ds)
    ensures ParseInt(w1 + sign + ds + w2)
         == Some(if sign == "-" then -(DigitsValue(ds) as int) else DigitsValue(ds))
  {
    hide ParseInt, ParseSigned, TrimStart, TrimEnd, DigitsValue, IsIntSpace, AllDigits;
    var core := sign + ds;
    SignedDigits(sign, ds);
    SeqAssoc(w1, sign, ds);
    TrimIntSpaceAround(w1, core, w2);
    ParseIntOf(w1 + core + w2, core);
  }

  /** `int()` fails when the number holds a character that is not a digit: one lying
      between two characters `int()` does not skip, or one it does not skip that is not a
      sign. */
  lemma ParseIntRejects(s: string, i: nat, k: nat, j: nat)
    requires i <= k <= j < |s|
    requires !IsIntSpace(s[i]) && !IsIntSpace(s[j]) && !IsDigit(s[k])
    requires i < k || (s[k] != '+' && s[k] != '-')
    ensures ParseInt(s).None?
  {
    hide DigitsValue, TrimStart, TrimEnd;
    var e := TrimEnd(s, IsIntSpace);
    var t := TrimStart(e, IsIntSpace);
    var a := |e| - |t|;
    assert j < |e|;
    assert e[i] == s[i];
    assert a <= i;
    assert t[k - a] == s[k];
    if t[0] == '-' || t[0] == '+' {
      assert t[1..][k - a - 1] == s[k];
    }
  }

  /** The separators \x1c-\x1f are whitespace to `strip()` but not to `int()`: wherever
      one stands in the text, `int()` fails (`int("\x1c5")` raises). */
  lemma ParseIntRejectsSeparator(s: string, k: nat)
    requires k < |s| && '\U{1C}' <= s[k] <= '\U{1F}'
    ensures IsSpace(s[k]) && ParseInt(s).None?
  {
    ParseIntRejects(s, k, k, k);
  }

  lemma {:induction false} NatToStringRoundTrip(n: nat)
    ensures DigitsValue(NatToString(n)) == n
  {
    if n >= 10 {
      NatToStringRoundTrip(n / 10);
      var s := NatToString(n);
      assert s[..|s| - 1] == NatToString(n / 10);
    }
  }

  /** Reading back a formatted integer gives the integer. */
  lemma IntToStringRoundTrip(n: int)
    ensures ParseInt(IntToString(n)) == Some(n)
  {
    hide TrimStart, TrimEnd, NatToString, DigitsValue;
    var s := IntToString(n);
    TrimClean(s, IsIntSpace);
    if n < 0 {
      var ds := NatToString(-n);
      NatToStringRoundTrip(-n);
      assert s[1..] == ds;
      assert ParseSigned(s) == Some(n);
    } else {
      NatToStringRoundTrip(n);
      assert s[0] != '-' && s[0] != '+';
      assert ParseSigned(s) == Some(n);
    }
  }
}
