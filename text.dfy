/**
 * The Python string operations the bot's command parsing relies on,
 * on Dafny strings (sequences of Unicode scalar values, as Python's str):
 * `str.strip()`, `str.split(" ")`, `str.split()`, the substring test `p in s`,
 * `s.split(sep)[1]` and `int(s)`.
 */
module Text {

  import opened Wrappers

  /** Python's `str.isspace()` on one character: what `strip()` and `split()` treat as whitespace. */
  predicate IsSpace(c: char)
  {
    || ('\t' <= c <= '\r')
    || ('\U{1c}' <= c <= '\U{1f}')
    || c == ' ' || c == '\U{85}' || c == '\U{a0}' || c == '\U{1680}'
    || ('\U{2000}' <= c <= '\U{200a}')
    || c == '\U{2028}' || c == '\U{2029}' || c == '\U{202f}' || c == '\U{205f}' || c == '\U{3000}'
  }

  predicate AllSpace(s: string)
  {
    forall k :: 0 <= k < |s| ==> IsSpace(s[k])
  }

  predicate NoSpace(s: string)
  {
    forall k :: 0 <= k < |s| ==> !IsSpace(s[k])
  }

  // ---------------------------------------------------------------- strip()

  /** Length of the whitespace run at the start of `s`. */
  function LeadingSpaces(s: string): (n: nat)
    ensures n <= |s| && AllSpace(s[..n])
    ensures n < |s| ==> !IsSpace(s[n])
  {
    if s == [] || !IsSpace(s[0]) then 0
    else
      var m := LeadingSpaces(s[1..]);
      assert s[..1 + m] == [s[0]] + s[1..][..m];
      1 + m
  }

  /** Length of the whitespace run at the end of `s`. */
  function TrailingSpaces(s: string): (n: nat)
    ensures n <= |s| && AllSpace(s[|s| - n..])
    ensures n < |s| ==> !IsSpace(s[|s| - n - 1])
  {
    if s == [] || !IsSpace(s[|s| - 1]) then 0
    else
      var m := TrailingSpaces(s[..|s| - 1]);
      assert s[|s| - (1 + m)..] == s[..|s| - 1][|s| - 1 - m..] + [s[|s| - 1]];
      1 + m
  }

  /**
   * Python's `s.strip()`: `s` is the result with whitespace runs around it,
   * and the result neither starts nor ends with whitespace.
   */
  function Strip(s: string): (r: string)
    ensures r == [] || (!IsSpace(r[0]) && !IsSpace(r[|r| - 1]))
    ensures exists lead, trail :: s == lead + r + trail && AllSpace(lead) && AllSpace(trail)
    ensures r == [] <==> AllSpace(s)
  {
    var n := LeadingSpaces(s);
    var m := TrailingSpaces(s[n..]);
    StripEnds(s, n, m);
    StripPieces(s, n, m);
    StripEmpty(s, n, m);
    StripNotEmpty(s, n, m);
    s[n..][..|s| - n - m]
  }

  lemma StripEnds(s: string, n: nat, m: nat)
    requires n == LeadingSpaces(s) && m == TrailingSpaces(s[n..])
    ensures var r := s[n..][..|s| - n - m];
      r == [] || (!IsSpace(r[0]) && !IsSpace(r[|r| - 1]))
  {
    var t := s[n..];
    var r := t[..|t| - m];
    assert r != [] ==> r[0] == t[0] && r[|r| - 1] == t[|t| - m - 1];
  }

  lemma StripPieces(s: string, n: nat, m: nat)
    requires n <= |s| && m <= |s| - n
    requires AllSpace(s[..n]) && AllSpace(s[n..][|s| - n - m..])
    ensures exists lead, trail :: s == lead + s[n..][..|s| - n - m] + trail && AllSpace(lead) && AllSpace(trail)
  {
    var t := s[n..];
    var lead, r, trail := s[..n], t[..|t| - m], t[|t| - m..];
    assert r + trail == t;
    assert lead + t == s;
    assert s == lead + r + trail && AllSpace(lead) && AllSpace(trail);
  }

  lemma StripEmpty(s: string, n: nat, m: nat)
    requires n <= |s| && m <= |s| - n
    requires AllSpace(s[..n]) && AllSpace(s[n..][|s| - n - m..])
    ensures s[n..][..|s| - n - m] == [] ==> AllSpace(s)
  {
    var t := s[n..];
    if t[..|t| - m] == [] {
      assert t[|t| - m..] == t;
      assert s == s[..n] + t;
      forall k | 0 <= k < |s| ensures IsSpace(s[k]) {
        assert s[k] == (s[..n] + t)[k];
      }
    }
  }

  lemma StripNotEmpty(s: string, n: nat, m: nat)
    requires n == LeadingSpaces(s) && m == TrailingSpaces(s[n..])
    ensures s[n..][..|s| - n - m] != [] ==> !AllSpace(s)
  {
    if s[n..][..|s| - n - m] != [] {
      assert !IsSpace(s[n]);
    }
  }

  // ------------------------------------------------------ split on one separator

  /**
   * Python's `s.split(sep)` for a one-character separator: every occurrence
   * of `sep` cuts, so adjacent separators give empty parts and "" gives [""].
   */
  function Split(s: string, sep: char): (parts: seq<string>)
    ensures |parts| >= 1
    ensures forall k :: 0 <= k < |parts| ==> sep !in parts[k]
  {
    if s == [] then [""]
    else
      var rest := Split(s[1..], sep);
      if s[0] == sep then [""] + rest
      else
        assert forall k :: 1 <= k < |rest| ==> rest[1..][k - 1] == rest[k];
        [[s[0]] + rest[0]] + rest[1..]
  }

  /** Python's `sep.join(parts)` for a non-empty list and a one-character separator. */
  function Join(parts: seq<string>, sep: char): string
    requires |parts| >= 1
  {
    if |parts| == 1 then parts[0] else parts[0] + [sep] + Join(parts[1..], sep)
  }

  /** Joining the parts of a split gives back the string. */
  lemma {:induction false} JoinSplit(s: string, sep: char)
    ensures Join(Split(s, sep), sep) == s
  {
    if s != [] {
      JoinSplit(s[1..], sep);
      var rest := Split(s[1..], sep);
      if s[0] == sep {
        assert ([""] + rest)[1..] == rest;
      } else {
        var parts := [[s[0]] + rest[0]] + rest[1..];
        if |rest| == 1 {
          assert rest == [rest[0]] && Join(rest, sep) == rest[0];
          assert [s[0]] + s[1..] == s;
        } else {
          assert parts[1..] == rest[1..];
          assert Join(rest, sep) == rest[0] + [sep] + Join(rest[1..], sep);
        }
      }
    }
  }

  /** A string free of the separator splits into itself alone. */
  lemma {:induction false} SplitWithout(s: string, sep: char)
    requires sep !in s
    ensures Split(s, sep) == [s]
  {
    if s != [] {
      assert s[0] != sep && sep !in s[1..];
      SplitWithout(s[1..], sep);
      assert [s[0]] + s[1..] == s;
    }
  }

  /** Splitting `a`, a separator and `b`, where `a` is free of the separator, gives `a` then the parts of `b`. */
  lemma {:induction false} SplitAfter(a: string, b: string, sep: char)
    requires sep !in a
    ensures Split(a + [sep] + b, sep) == [a] + Split(b, sep)
  {
    if a == [] {
      assert a + [sep] + b == [sep] + b;
      assert ([sep] + b)[1..] == b;
    } else {
      assert (a + [sep] + b)[1..] == a[1..] + [sep] + b;
      assert sep !in a[1..];
      SplitAfter(a[1..], b, sep);
      assert [a[0]] + a[1..] == a;
    }
  }

  /** Parts free of the separator are recovered by splitting their join. */
  lemma {:induction false} SplitJoin(parts: seq<string>, sep: char)
    requires |parts| >= 1
    requires forall k :: 0 <= k < |parts| ==> sep !in parts[k]
    ensures Split(Join(parts, sep), sep) == parts
  {
    if |parts| == 1 {
      SplitWithout(parts[0], sep);
    } else {
      SplitJoin(parts[1..], sep);
      SplitAfter(parts[0], Join(parts[1..], sep), sep);
      assert [parts[0]] + parts[1..] == parts;
    }
  }

  // ------------------------------------------------ split() on whitespace runs

  /** The longest prefix of `s` free of whitespace. */
  function Word(s: string): (w: string)
    ensures w <= s && NoSpace(w)
    ensures |w| < |s| ==> IsSpace(s[|w|])
  {
    if s == [] || IsSpace(s[0]) then [] else [s[0]] + Word(s[1..])
  }

  /**
   * Python's `s.split()` without arguments: the maximal whitespace-free
   * runs of `s`, none of them empty; there are none exactly when `s` is all
   * whitespace. `TokensStep` says which run comes first.
   */
  function Tokens(s: string): (ts: seq<string>)
    ensures forall k :: 0 <= k < |ts| ==> ts[k] != [] && NoSpace(ts[k])
    ensures ts == [] <==> AllSpace(s)
    decreases |s|
  {
    if s == [] then []
    else if IsSpace(s[0]) then
      assert AllSpace(s) <==> AllSpace(s[1..]) by {
        if AllSpace(s[1..]) {
          forall k | 0 <= k < |s| ensures IsSpace(s[k]) {
            if k > 0 { assert s[k] == s[1..][k - 1]; }
          }
        }
      }
      Tokens(s[1..])
    else
      var w := Word(s);
      [w] + Tokens(s[|w|..])
  }

  /**
   * The tokens of whitespace, then a whitespace-free run that the end or
   * whitespace follows, then the rest: that run, then the tokens of the rest.
   * With `Tokens(s) == [] <==> AllSpace(s)` this pins down every token.
   */
  lemma {:induction false} TokensStep(lead: string, w: string, rest: string)
    requires AllSpace(lead) && w != [] && NoSpace(w)
    requires rest == [] || IsSpace(rest[0])
    ensures Tokens(lead + w + rest) == [w] + Tokens(rest)
  {
    var s := lead + w + rest;
    if lead == [] {
      assert s == w + rest;
      assert s[0] == w[0];
      if rest == [] {
        WordOfWord(w);
      } else {
        WordBeforeSpace(w, rest);
      }
      assert Word(s) == w;
      assert s[|w|..] == rest;
      assert Tokens(s) == [Word(s)] + Tokens(s[|Word(s)|..]);
    } else {
      assert IsSpace(s[0]);
      assert s[1..] == lead[1..] + w + rest;
      TokensStep(lead[1..], w, rest);
    }
  }

  /** A whitespace-free string has at most one token: itself. */
  lemma {:induction false} TokensOfWord(s: string)
    requires NoSpace(s)
    ensures Tokens(s) == if s == [] then [] else [s]
  {
    if s != [] {
      WordOfWord(s);
    }
  }

  lemma {:induction false} WordOfWord(s: string)
    requires NoSpace(s)
    ensures Word(s) == s
  {
    if s != [] {
      WordOfWord(s[1..]);
    }
  }

  lemma {:induction false} WordBeforeSpace(a: string, b: string)
    requires NoSpace(a) && b != [] && IsSpace(b[0])
    ensures Word(a + b) == a
  {
    if a == [] {
      assert a + b == b;
    } else {
      assert (a + b)[1..] == a[1..] + b;
      WordBeforeSpace(a[1..], b);
    }
  }

  /** A date and a time joined by one space are the two tokens of the result. */
  lemma {:induction false} TokensOfPair(d: string, t: string)
    requires d != [] && t != [] && NoSpace(d) && NoSpace(t)
    ensures Tokens(d + " " + t) == [d, t]
  {
    var s := d + " " + t;
    WordBeforeSpace(d, " " + t);
    assert s == d + (" " + t);
    assert s[|d|..] == " " + t;
    assert (" " + t)[1..] == t;
    TokensOfWord(t);
  }

  // ------------------------------------------------------- substring search

  /** `p` occurs in `s` at position `i`. */
  predicate OccursAt(s: string, p: string, i: int)
  {
    0 <= i && i + |p| <= |s| && s[i..i + |p|] == p
  }

  /** Python's `s.find(p)`: the leftmost position of `p` in `s`, if any. */
  function Find(s: string, p: string): (r: Option<nat>)
    ensures r.Some? ==> OccursAt(s, p, r.value)
    ensures forall i :: 0 <= i && (r.None? || i < r.value) ==> !OccursAt(s, p, i)
    decreases |s|
  {
    if |s| < |p| then None
    else if s[..|p|] == p then Some(0)
    else
      var r := Find(s[1..], p);
      assert s[0..|p|] == s[..|p|];
      OccursShift(s, p);
      match r
      case None => None
      case Some(k) => Some(k + 1)
  }

  lemma OccursShift(s: string, p: string)
    requires s != []
    ensures forall i :: 1 <= i ==> (OccursAt(s, p, i) <==> OccursAt(s[1..], p, i - 1))
  {
    forall i | 1 <= i
      ensures OccursAt(s, p, i) <==> OccursAt(s[1..], p, i - 1)
    {
      if i + |p| <= |s| {
        assert s[1..][i - 1..i - 1 + |p|] == s[i..i + |p|];
      }
    }
  }

  /** Python's substring test `p in s`. */
  predicate Contains(s: string, p: string)
  {
    Find(s, p).Some?
  }

  /** Python's `s.split(sep)[1]`: the text between the first and the second `sep`; None where Python raises IndexError. */
  function SecondField(s: string, sep: string): (f: Option<string>)
    requires sep != []
    ensures f.None? <==> !Contains(s, sep)
    ensures f.Some? ==> !Contains(f.value, sep)
    ensures f.Some? ==> exists i :: && OccursAt(s, sep, i) && !Contains(s[..i], sep) && f.value <= s[i + |sep|..]
                                    && (f.value == s[i + |sep|..] || OccursAt(s, sep, i + |sep| + |f.value|))
  {
    match Find(s, sep)
    case None => None
    case Some(i) =>
      var rest := s[i + |sep|..];
      match Find(rest, sep)
      case None =>
        NoEarlierOccurrence(s, sep, i);
        Some(rest)
      case Some(j) =>
        FieldBetween(s, sep, i, rest, j);
        Some(rest[..j])
  }

  /** The text between the leftmost `sep`, at `i`, and the next one, `j` further on. */
  lemma FieldBetween(s: string, sep: string, i: nat, rest: string, j: nat)
    requires sep != [] && OccursAt(s, sep, i) && forall k :: 0 <= k < i ==> !OccursAt(s, sep, k)
    requires rest == s[i + |sep|..]
    requires OccursAt(rest, sep, j) && forall k :: 0 <= k < j ==> !OccursAt(rest, sep, k)
    ensures && !Contains(rest[..j], sep) && !Contains(s[..i], sep) && rest[..j] <= rest
            && OccursAt(s, sep, i + |sep| + |rest[..j]|)
  {
    NoEarlierOccurrence(s, sep, i);
    NoEarlierOccurrence(rest, sep, j);
    assert s[i + |sep| + j..i + |sep| + j + |sep|] == rest[j..j + |sep|];
  }

  /** No occurrence before the leftmost one means no occurrence in the prefix before it. */
  lemma NoEarlierOccurrence(s: string, p: string, i: nat)
    requires p != [] && i <= |s|
    requires forall j :: 0 <= j < i ==> !OccursAt(s, p, j)
    ensures !Contains(s[..i], p)
  {
    var r := Find(s[..i], p);
    if r.Some? {
      assert s[..i][r.value..r.value + |p|] == s[r.value..r.value + |p|];
      assert OccursAt(s, p, r.value);
    }
  }

  // ------------------------------------------------------------------ int()

  predicate IsDigit(c: char)
  {
    '0' <= c <= '9'
  }

  predicate AllDigits(s: string)
  {
    forall k :: 0 <= k < |s| ==> IsDigit(s[k])
  }

  /** The value of a run of decimal digits, most significant first. */
  function DigitsValue(ds: string): nat
    requires AllDigits(ds)
  {
    if ds == [] then 0
    else DigitsValue(ds[..|ds| - 1]) * 10 + (ds[|ds| - 1] as int - '0' as int)
  }

  /** Python's `str(n)` for a non-negative integer, as used in f-strings. */
  function Decimal(n: nat): (s: string)
    ensures s != [] && AllDigits(s)
    ensures s[0] == '0' ==> n == 0
  {
    var d := ['0' + (n % 10) as char];
    if n < 10 then d else Decimal(n / 10) + d
  }

  /** Reading back a decimal rendering gives the number. */
  lemma {:induction false} DecimalValue(n: nat)
    ensures DigitsValue(Decimal(n)) == n
  {
    if n >= 10 {
      DecimalValue(n / 10);
      var s := Decimal(n);
      assert s[..|s| - 1] == Decimal(n / 10);
    }
  }

  /**
   * U+001C..U+001F: whitespace to `str.isspace()` and `strip()`, but not to
   * `int()`, which strips only the other whitespace and then finds no digit
   * in them, so any string holding one fails to parse.
   */
  predicate IsInfoSeparator(c: char)
  {
    '\U{1c}' <= c <= '\U{1f}'
  }

  /**
   * Python's `int(s)` on a string: surrounding whitespace other than
   * U+001C..U+001F is ignored, then an optional sign and one or more decimal
   * digits; None where Python raises ValueError.
   */
  function ParseInt(s: string): (r: Option<int>)
    ensures r.Some? ==> Strip(s) != []
    ensures r.Some? && r.value < 0 ==> Strip(s)[0] == '-'
    ensures r.Some? ==> forall k :: 0 <= k < |s| ==> !IsInfoSeparator(s[k])
  {
    var t := Strip(s);
    if exists k :: 0 <= k < |s| && IsInfoSeparator(s[k]) then None
    else if t == [] then None
    else if t[0] == '-' || t[0] == '+' then
      var ds := t[1..];
      if ds != [] && AllDigits(ds) then
        var v: int := if t[0] == '-' then -(DigitsValue(ds) as int) else DigitsValue(ds);
        Some(v)
      else None
    else if AllDigits(t) then Some(DigitsValue(t))
    else None
  }

  /** A whitespace-free string is its own strip. */
  lemma StripNoSpace(s: string)
    requires NoSpace(s)
    ensures Strip(s) == s
  {
    var r := Strip(s);
    var lead, trail :| s == lead + r + trail && AllSpace(lead) && AllSpace(trail);
    assert lead == [] && trail == [];
  }

  /** `int(t)` on a run of decimal digits is its value. */
  lemma ParseDigits(t: string)
    requires t != [] && AllDigits(t)
    ensures ParseInt(t) == Some(DigitsValue(t))
  {
    assert NoSpace(t) by {
      forall k | 0 <= k < |t| ensures !IsSpace(t[k]) {
        assert IsDigit(t[k]);
      }
    }
    StripNoSpace(t);
    assert IsDigit(t[0]);
  }

  /** `int(str(n))` gives back `n` for every non-negative `n`. */
  lemma ParseDecimal(n: nat)
    ensures ParseInt(Decimal(n)) == Some(n)
  {
    ParseDigits(Decimal(n));
    DecimalValue(n);
  }

  /** `int(s)` fails on a string holding no digit at all. */
  lemma ParseNeedsDigit(s: string)
    requires forall k :: 0 <= k < |s| ==> !IsDigit(s[k])
    ensures ParseInt(s) == None
  {
    var r := Strip(s);
    assert r == [] || (!IsDigit(r[0]) && (|r| > 1 ==> !IsDigit(r[1]))) by {
      var lead, trail :| s == lead + r + trail && AllSpace(lead) && AllSpace(trail);
      if r != [] {
        assert r[0] == s[|lead|];
        if |r| > 1 {
          assert r[1] == s[|lead| + 1];
        }
      }
    }
  }
}
