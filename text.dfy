/** String operations of Rust's `str` that the source relies on: Unicode
    whitespace trimming, ASCII lowercasing, substring search, decimal and
    hexadecimal formatting, and UTF-8 byte lengths. */
module Text {
  import opened Wrappers

  /** `char::is_whitespace`: the Unicode White_Space property. */
  predicate IsWhitespace(c: char)
  {
    || c == ' '
    || ('\t' <= c <= '\r')
    || c == '\U{85}' || c == '\U{A0}' || c == '\U{1680}'
    || ('\U{2000}' <= c <= '\U{200A}')
    || c == '\U{2028}' || c == '\U{2029}' || c == '\U{202F}' || c == '\U{205F}'
    || c == '\U{3000}'
  }

  /** `str::trim_end`: drops trailing whitespace. */
  function TrimEnd(s: string): (r: string)
    ensures r <= s
    ensures r == [] || !IsWhitespace(r[|r| - 1])
    ensures forall i :: |r| <= i < |s| ==> IsWhitespace(s[i])
  {
    if s != [] && IsWhitespace(s[|s| - 1]) then TrimEnd(s[..|s| - 1]) else s
  }

  /** `str::trim_start`: drops leading whitespace. */
  function TrimStart(s: string): (r: string)
    ensures |r| <= |s| && r == s[|s| - |r|..]
    ensures r == [] || !IsWhitespace(r[0])
    ensures forall i :: 0 <= i < |s| - |r| ==> IsWhitespace(s[i])
  {
    if s != [] && IsWhitespace(s[0]) then TrimStart(s[1..]) else s
  }

  /** `r` sits at offset `a` of `s` with only whitespace before and after it. */
  predicate TrimmedAt(s: string, r: string, a: nat)
  {
    && a + |r| <= |s| && r == s[a..a + |r|]
    && (forall i :: 0 <= i < a ==> IsWhitespace(s[i]))
    && (forall i :: a + |r| <= i < |s| ==> IsWhitespace(s[i]))
  }

  /** `str::trim`: a piece of `s` that neither starts nor ends with
      whitespace, obtained by dropping only whitespace before and after it;
      a string already in that shape is kept whole. */
  function Trim(s: string): (r: string)
    ensures Contains(s, r)
    ensures r == [] || (!IsWhitespace(r[0]) && !IsWhitespace(r[|r| - 1]))
    ensures exists a: nat :: TrimmedAt(s, r, a)
    ensures s == [] || (!IsWhitespace(s[0]) && !IsWhitespace(s[|s| - 1])) ==> r == s
  {
    var t := TrimEnd(s);
    var r := TrimStart(t);
    TrimmedPiece(s, t, r);
    r
  }

  /** A suffix `r` of a prefix `t` of `s` occurs in `s`, and ends where `t`
      ends; when only whitespace lies around it, only whitespace was dropped. */
  lemma TrimmedPiece(s: string, t: string, r: string)
    requires t <= s && |r| <= |t| && r == t[|t| - |r|..]
    requires t == [] || !IsWhitespace(t[|t| - 1])
    requires forall i :: |t| <= i < |s| ==> IsWhitespace(s[i])
    requires forall i :: 0 <= i < |t| - |r| ==> IsWhitespace(t[i])
    ensures Contains(s, r)
    ensures r == [] || !IsWhitespace(r[|r| - 1])
    ensures exists a: nat :: TrimmedAt(s, r, a)
  {
    var a := |t| - |r|;
    assert s[a..|t|] == r;
    assert OccursAt(s, r, a);
    if r != [] {
      assert r[|r| - 1] == t[|t| - 1];
    }
    forall i | 0 <= i < a
      ensures IsWhitespace(s[i])
    {
      assert s[i] == t[i];
    }
    assert TrimmedAt(s, r, a);
  }

  /** Trimming the end twice is trimming it once. */
  lemma TrimEndIdempotent(s: string)
    ensures TrimEnd(TrimEnd(s)) == TrimEnd(s)
  {
  }

  predicate IsAsciiUpper(c: char)
  {
    'A' <= c <= 'Z'
  }

  function LowerChar(c: char): (d: char)
    ensures !IsAsciiUpper(d)
  {
    if IsAsciiUpper(c) then (c as int + 32) as char else c
  }

  /** `str::to_lowercase`, restricted to ASCII letters (see README): no
      capital is left, every capital moves 32 code points down to its small
      letter, and every other character stays where it was. */
  function Lower(s: string): (r: string)
    ensures |r| == |s|
    ensures forall i :: 0 <= i < |s| ==> !IsAsciiUpper(r[i])
    ensures forall i :: 0 <= i < |s| && IsAsciiUpper(s[i]) ==> r[i] as int == s[i] as int + 32
    ensures forall i :: 0 <= i < |s| && !IsAsciiUpper(s[i]) ==> r[i] == s[i]
  {
    seq(|s|, i requires 0 <= i < |s| => LowerChar(s[i]))
  }

  /** `sub` occurs in `s` at offset `i`. */
  predicate OccursAt(s: string, sub: string, i: nat)
  {
    i + |sub| <= |s| && s[i..i + |sub|] == sub
  }

  /** `str::contains` with a string pattern. */
  predicate Contains(s: string, sub: string)
  {
    exists i: nat | i <= |s| :: OccursAt(s, sub, i)
  }

  /** A piece of a piece of `s` is a piece of `s`. */
  lemma ContainsTrans(s: string, t: string, u: string)
    requires Contains(s, t) && Contains(t, u)
    ensures Contains(s, u)
  {
    var i: nat :| i <= |s| && OccursAt(s, t, i);
    var j: nat :| j <= |t| && OccursAt(t, u, j);
    forall k | 0 <= k < |u|
      ensures s[i + j + k] == u[k]
    {
      assert u[k] == t[j..j + |u|][k] == t[j + k];
      assert t[j + k] == s[i..i + |t|][j + k];
    }
    assert s[i + j..i + j + |u|] == u;
    assert OccursAt(s, u, i + j);
  }

  /** `str::starts_with` */
  predicate StartsWith(s: string, prefix: string)
  {
    |prefix| <= |s| && s[..|prefix|] == prefix
  }

  /** A hint holding an ASCII capital letter never occurs in a lower-cased string. */
  lemma {:induction false} UpperNeverInLower(s: string, hint: string, j: nat)
    requires j < |hint| && IsAsciiUpper(hint[j])
    ensures !Contains(Lower(s), hint)
  {
  }

  /** `str::strip_prefix` */
  function StripPrefix(s: string, prefix: string): (r: Option<string>)
    ensures r.Some? <==> StartsWith(s, prefix)
    ensures r.Some? ==> s == prefix + r.value
  {
    if StartsWith(s, prefix) then Some(s[|prefix|..]) else None
  }

  /** Position of the first `c` in `s`. */
  function IndexOfChar(s: string, c: char): (r: Option<nat>)
    ensures r.None? <==> c !in s
    ensures r.Some? ==> r.value < |s| && s[r.value] == c && c !in s[..r.value]
  {
    if s == [] then None
    else if s[0] == c then Some(0)
    else match IndexOfChar(s[1..], c)
      case None => None
      case Some(i) =>
        assert s[..i + 1] == [s[0]] + s[1..][..i];
        Some(i + 1)
  }

  /** `str::split_once` with a `char` pattern: the text before and after the
      first `c`. */
  function SplitOnce(s: string, c: char): (r: Option<(string, string)>)
    ensures r.None? <==> c !in s
    ensures r.Some? ==> s == r.value.0 + [c] + r.value.1 && c !in r.value.0
  {
    match IndexOfChar(s, c)
    case None => None
    case Some(i) =>
      assert s == s[..i] + [c] + s[i + 1..];
      Some((s[..i], s[i + 1..]))
  }

  /** Splitting at the first `c` is the only split whose left part holds no `c`. */
  lemma SplitOnceUnique(a: string, c: char, b: string)
    requires c !in a
    ensures SplitOnce(a + [c] + b, c) == Some((a, b))
  {
    var s := a + [c] + b;
    assert s[..|a|] == a && s[|a|] == c;
    assert s[|a| + 1..] == b;
  }

  /** `str::replace`: every non-overlapping occurrence of `from`, left to right,
      becomes `to`. */
  function Replace(s: string, from: string, to: string): string
    requires from != []
  {
    if |s| < |from| then s
    else if s[..|from|] == from then to + Replace(s[|from|..], from, to)
    else [s[0]] + Replace(s[1..], from, to)
  }

  /** Text in which `from` does not occur comes back unchanged. */
  lemma {:induction false} ReplaceAbsent(s: string, from: string, to: string)
    requires from != [] && !Contains(s, from)
    ensures Replace(s, from, to) == s
    decreases |s|
  {
    if |s| >= |from| {
      assert !OccursAt(s, from, 0);
      ContainsInTail(s, from);
      ReplaceAbsent(s[1..], from, to);
      assert [s[0]] + s[1..] == s;
    }
  }

  /** A double space at the front collapses to one space. */
  lemma ReplaceCollapsesDoubleSpace(t: string)
    ensures Replace("  " + t, "  ", " ") == " " + Replace(t, "  ", " ")
  {
    assert ("  " + t)[..2] == "  " && ("  " + t)[2..] == t;
  }

  /** A character that does not start a double space is kept, and the
      replacement goes on after it. */
  lemma ReplaceKeepsChar(c: char, t: string)
    requires !StartsWith([c] + t, "  ")
    ensures Replace([c] + t, "  ", " ") == [c] + Replace(t, "  ", " ")
  {
    var s := [c] + t;
    assert s[1..] == t;
    if |s| < 2 {
      assert t == [];
    }
  }

  /** Replacing with a text no longer than the pattern never lengthens the text. */
  lemma {:induction false} ReplaceNotLonger(s: string, from: string, to: string)
    requires from != [] && |to| <= |from|
    ensures |Replace(s, from, to)| <= |s|
    decreases |s|
  {
    if |s| >= |from| {
      if s[..|from|] == from {
        ReplaceNotLonger(s[|from|..], from, to);
      } else {
        ReplaceNotLonger(s[1..], from, to);
      }
    }
  }

  /** Replacing with a text of the same length keeps the length. */
  lemma {:induction false} ReplaceSameLength(s: string, from: string, to: string)
    requires from != [] && |to| == |from|
    ensures |Replace(s, from, to)| == |s|
    decreases |s|
  {
    if |s| >= |from| {
      if s[..|from|] == from {
        ReplaceSameLength(s[|from|..], from, to);
      } else {
        ReplaceSameLength(s[1..], from, to);
      }
    }
  }

  lemma ContainsInTail(s: string, sub: string)
    requires s != []
    ensures Contains(s[1..], sub) ==> Contains(s, sub)
  {
    if Contains(s[1..], sub) {
      var i: nat :| i <= |s[1..]| && OccursAt(s[1..], sub, i);
      assert s[i + 1..i + 1 + |sub|] == s[1..][i..i + |sub|];
      assert OccursAt(s, sub, i + 1);
    }
  }

  /** Text holding no first character of `from` passes through unchanged. */
  lemma {:induction false} ReplaceSkips(s: string, t: string, from: string, to: string)
    requires from != [] && from[0] !in s
    ensures Replace(s + t, from, to) == s + Replace(t, from, to)
  {
    if s != [] {
      var u := s + t;
      assert u[1..] == s[1..] + t;
      ReplaceSkips(s[1..], t, from, to);
      if |u| >= |from| {
        assert u[..|from|] != from by {
          assert u[..|from|][0] == s[0] != from[0];
        }
        assert Replace(u, from, to) == [u[0]] + Replace(u[1..], from, to);
      } else {
        assert Replace(t, from, to) == t;
        assert Replace(u, from, to) == u;
      }
      ConsSplit(s, Replace(t, from, to));
    } else {
      assert s + t == t;
    }
  }

  lemma ConsSplit(s: string, rest: string)
    requires s != []
    ensures [s[0]] + (s[1..] + rest) == s + rest
  {
    assert s == [s[0]] + s[1..];
  }

  function DecimalDigit(d: nat): char
    requires d < 10
  {
    "0123456789"[d]
  }

  /** `format!("{}", n)` for an unsigned integer. */
  function Decimal(n: nat): (r: string)
    ensures |r| >= 1
    ensures forall i :: 0 <= i < |r| ==> '0' <= r[i] <= '9'
  {
    if n < 10 then [DecimalDigit(n)] else Decimal(n / 10) + [DecimalDigit(n % 10)]
  }

  function HexDigitLower(d: nat): char
    requires d < 16
  {
    "0123456789abcdef"[d]
  }

  /** `format!("{:#06x}", v)` for a u16: "0x" and four lower-case hex digits. */
  function Hex06(v: nat): (r: string)
    requires v < 0x1_0000
    ensures |r| == 6 && r[..2] == "0x"
  {
    "0x" + [HexDigitLower(v / 0x1000), HexDigitLower((v / 0x100) % 16),
            HexDigitLower((v / 0x10) % 16), HexDigitLower(v % 16)]
  }

  /** `format!("{}", b)` for a bool. */
  function BoolText(b: bool): string
  {
    if b then "true" else "false"
  }

  /** Number of bytes of `c` in UTF-8 (`char::len_utf8`). */
  function Utf8Width(c: char): (w: nat)
    ensures 1 <= w <= 4
  {
    if c as int < 0x80 then 1
    else if c as int < 0x800 then 2
    else if c as int < 0x1_0000 then 3
    else 4
  }

  /** `str::len`: the UTF-8 length in bytes. */
  function ByteLen(s: string): (n: nat)
    ensures n >= |s|
  {
    if s == [] then 0 else ByteLen(s[..|s| - 1]) + Utf8Width(s[|s| - 1])
  }

  lemma {:induction false} ByteLenAppend(s: string, t: string)
    ensures ByteLen(s + t) == ByteLen(s) + ByteLen(t)
    decreases |t|
  {
    if t == [] {
      assert s + t == s;
    } else {
      assert (s + t)[..|s + t| - 1] == s + t[..|t| - 1];
      ByteLenAppend(s, t[..|t| - 1]);
    }
  }

  lemma {:induction false} ByteLenPrefixMono(s: string, i: nat, j: nat)
    requires i <= j <= |s|
    ensures ByteLen(s[..i]) <= ByteLen(s[..j])
    decreases j - i
  {
    if i < j {
      ByteLenPrefixMono(s, i, j - 1);
      assert s[..j][..j - 1] == s[..j - 1];
    }
  }

  lemma ByteLenAscii(s: string)
    requires forall i :: 0 <= i < |s| ==> s[i] as int < 0x80
    ensures ByteLen(s) == |s|
  {
    if s != [] {
      ByteLenAscii(s[..|s| - 1]);
    }
  }
}
