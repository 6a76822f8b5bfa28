/**
 * The JavaScript built-ins the two pages use on strings: `String(n)` on an
 * integral number, `toUpperCase` (restricted to ASCII), `String.prototype.trim`
 * with the language's own set of white-space characters, and `split`/`join`
 * on a single separator character.
 */
module JsText {

  // ---------------------------------------------------------------------------
  // String(n) for an integral number n
  // ---------------------------------------------------------------------------

  predicate IsDigit(c: char) { '0' <= c <= '9' }

  function DigitChar(d: nat): char
    requires d < 10
  {
    (('0' as int) + d) as char
  }

  function DigitValue(c: char): nat
    requires IsDigit(c)
  {
    (c as int) - ('0' as int)
  }

  /** Decimal notation of a natural number, without leading zeros. */
  function NatToString(n: nat): (s: string)
    ensures |s| >= 1
    ensures forall i :: 0 <= i < |s| ==> IsDigit(s[i])
    ensures |s| > 1 ==> s[0] != '0'
    ensures n < 10 <==> |s| == 1
    decreases n
  {
    if n < 10 then [DigitChar(n)] else NatToString(n / 10) + [DigitChar(n % 10)]
  }

  /** The number a string of decimal digits denotes: the inverse of NatToString. */
  function DecimalValue(s: string): nat
    requires forall i :: 0 <= i < |s| ==> IsDigit(s[i])
  {
    if s == [] then 0 else DecimalValue(s[..|s| - 1]) * 10 + DigitValue(s[|s| - 1])
  }

  lemma {:induction false} DecimalRoundTrip(n: nat)
    ensures DecimalValue(NatToString(n)) == n
    decreases n
  {
    if n >= 10 {
      var s := NatToString(n);
      assert s[..|s| - 1] == NatToString(n / 10);
      DecimalRoundTrip(n / 10);
    }
  }

  /** `String(n)` for an integer n: a minus sign before the digits of |n| when n < 0. */
  function IntToString(n: int): (s: string)
    ensures |s| >= 1
    ensures (s[0] == '-') <==> n < 0
  {
    if n < 0 then "-" + NatToString(-n) else NatToString(n)
  }

  /** Distinct integers print differently, so comparing `String(n)` with a text compares n. */
  lemma IntToStringInjective(m: int, n: int)
    ensures IntToString(m) == IntToString(n) <==> m == n
  {
    if IntToString(m) == IntToString(n) {
      if m < 0 {
        assert n < 0;
        assert IntToString(m)[1..] == NatToString(-m);
        assert IntToString(n)[1..] == NatToString(-n);
        NatToStringInjective(-m, -n);
      } else {
        assert n >= 0;
        NatToStringInjective(m, n);
      }
    }
  }

  lemma NatToStringInjective(m: nat, n: nat)
    requires NatToString(m) == NatToString(n)
    ensures m == n
  {
    DecimalRoundTrip(m);
    DecimalRoundTrip(n);
  }

  // ---------------------------------------------------------------------------
  // Character classes and toUpperCase
  // ---------------------------------------------------------------------------

  predicate IsAsciiUpper(c: char) { 'A' <= c <= 'Z' }

  predicate IsAsciiLower(c: char) { 'a' <= c <= 'z' }

  /** `toUpperCase` on one character, for the ASCII letters only. */
  function ToUpper(c: char): (u: char)
    ensures u != c <==> IsAsciiLower(c)
    ensures IsAsciiLower(c) ==> IsAsciiUpper(u)
  {
    if IsAsciiLower(c) then ((c as int) - 32) as char else c
  }

  /**
   * The characters `trim` removes: the WhiteSpace and LineTerminator
   * productions of the ECMAScript language (tab, line tabulation, form feed,
   * space, no-break space, byte-order mark, the Zs space separators, line
   * feed, carriage return, line and paragraph separators).
   */
  predicate IsWhitespace(c: char)
  {
    || c == '\t' || c == '\n' || c == '\U{000B}' || c == '\U{000C}' || c == '\r'
    || c == ' ' || c == '\U{00A0}' || c == '\U{1680}'
    || ('\U{2000}' <= c <= '\U{200A}')
    || c == '\U{2028}' || c == '\U{2029}' || c == '\U{202F}' || c == '\U{205F}'
    || c == '\U{3000}' || c == '\U{FEFF}'
  }

  lemma ToUpperKeepsClass(c: char)
    ensures !IsAsciiLower(ToUpper(c))
    ensures IsWhitespace(ToUpper(c)) <==> IsWhitespace(c)
    ensures ToUpper(c) == ' ' <==> c == ' '
    ensures IsAsciiUpper(c) ==> ToUpper(c) == c
  {
  }

  // ---------------------------------------------------------------------------
  // trim
  // ---------------------------------------------------------------------------

  predicate AllWhitespace(s: string)
  {
    forall i :: 0 <= i < |s| ==> IsWhitespace(s[i])
  }

  /** The number of white-space characters `trim` drops at the front. */
  function LeadingWhitespace(s: string): (n: nat)
    ensures n <= |s|
    ensures AllWhitespace(s[..n])
    ensures n < |s| ==> !IsWhitespace(s[n])
  {
    if s != [] && IsWhitespace(s[0]) then 1 + LeadingWhitespace(s[1..]) else 0
  }

  /** The number of white-space characters `trim` drops at the back. */
  function TrailingWhitespace(s: string): (n: nat)
    ensures n <= |s|
    ensures AllWhitespace(s[|s| - n..])
    ensures n < |s| ==> !IsWhitespace(s[|s| - n - 1])
  {
    if s != [] && IsWhitespace(s[|s| - 1]) then 1 + TrailingWhitespace(s[..|s| - 1]) else 0
  }

  /** Neither end of s is white space. */
  predicate Trimmed(s: string)
  {
    s == [] || (!IsWhitespace(s[0]) && !IsWhitespace(s[|s| - 1]))
  }

  /** `s.trim()`. */
  function Trim(s: string): (r: string)
    ensures Trimmed(r)
  {
    var t := s[LeadingWhitespace(s)..];
    t[..|t| - TrailingWhitespace(t)]
  }

  /** The trimmed string is a slice of the original with only white space on either side. */
  lemma TrimIsSlice(s: string) returns (a: nat, b: nat)
    ensures a <= b <= |s|
    ensures Trim(s) == s[a..b]
    ensures AllWhitespace(s[..a]) && AllWhitespace(s[b..])
  {
    a := LeadingWhitespace(s);
    var t := s[a..];
    var n := TrailingWhitespace(t);
    b := |s| - n;
    assert Trim(s) == t[..|t| - n];
    assert t[..|t| - n] == s[a..b];
    assert t[|t| - n..] == s[b..];
  }

  /** The string with every white-space character deleted. */
  function RemoveWhitespace(s: string): (r: string)
    ensures |r| <= |s|
    ensures forall i :: 0 <= i < |r| ==> !IsWhitespace(r[i])
  {
    if s == [] then []
    else (if IsWhitespace(s[0]) then [] else [s[0]]) + RemoveWhitespace(s[1..])
  }

  lemma {:induction false} RemoveWhitespaceAppend(s: string, t: string)
    ensures RemoveWhitespace(s + t) == RemoveWhitespace(s) + RemoveWhitespace(t)
  {
    if s != [] {
      assert (s + t)[0] == s[0];
      assert (s + t)[1..] == s[1..] + t;
      RemoveWhitespaceAppend(s[1..], t);
    } else {
      assert s + t == t;
    }
  }

  lemma {:induction false} RemoveAllWhitespace(s: string)
    ensures RemoveWhitespace(s) == [] <==> AllWhitespace(s)
  {
    if s != [] {
      RemoveAllWhitespace(s[1..]);
      assert AllWhitespace(s) <==> IsWhitespace(s[0]) && AllWhitespace(s[1..]) by {
        if IsWhitespace(s[0]) && AllWhitespace(s[1..]) {
          forall i | 0 <= i < |s| ensures IsWhitespace(s[i]) {
            if i > 0 { assert s[i] == s[1..][i - 1]; }
          }
        }
      }
    }
  }

  lemma RemoveWhitespaceNonEmpty(s: string, j: nat)
    requires j < |s| && !IsWhitespace(s[j])
    ensures RemoveWhitespace(s) != []
  {
    RemoveAllWhitespace(s);
  }

  /** `trim` deletes white space only: nothing else is dropped, added or reordered. */
  lemma TrimKeepsText(s: string)
    ensures RemoveWhitespace(Trim(s)) == RemoveWhitespace(s)
  {
    var a, b := TrimIsSlice(s);
    var head, mid, tail := s[..a], s[a..b], s[b..];
    assert s == (head + mid) + tail;
    RemoveWhitespaceAppend(head + mid, tail);
    RemoveWhitespaceAppend(head, mid);
    RemoveAllWhitespace(head);
    RemoveAllWhitespace(tail);
    assert RemoveWhitespace(s) == RemoveWhitespace(mid);
  }

  // ---------------------------------------------------------------------------
  // split and join on one separator character
  // ---------------------------------------------------------------------------

  /** The number of times c occurs in s. */
  function Occurrences(s: string, c: char): nat
  {
    if s == [] then 0 else (if s[0] == c then 1 else 0) + Occurrences(s[1..], c)
  }

  lemma {:induction false} OccurrencesAppend(s: string, t: string, c: char)
    ensures Occurrences(s + t, c) == Occurrences(s, c) + Occurrences(t, c)
  {
    if s == [] {
      assert s + t == t;
    } else {
      assert (s + t)[1..] == s[1..] + t;
      OccurrencesAppend(s[1..], t, c);
    }
  }

  lemma {:induction false} OccurrencesAbsent(s: string, c: char)
    requires c !in s
    ensures Occurrences(s, c) == 0
  {
    if s != [] {
      assert s[0] in s;
      OccurrencesAbsent(s[1..], c);
    }
  }

  /** `s.split(sep)`: one more piece than there are separators, the empty string giving [""]. */
  function Split(s: string, sep: char): (ws: seq<string>)
    ensures |ws| == Occurrences(s, sep) + 1
  {
    if s == [] then [""]
    else
      var rest := Split(s[1..], sep);
      if s[0] == sep then [""] + rest else [[s[0]] + rest[0]] + rest[1..]
  }

  /** No piece of a split contains the separator. */
  lemma {:induction false} SplitPiecesFree(s: string, sep: char)
    ensures forall i :: 0 <= i < |Split(s, sep)| ==> sep !in Split(s, sep)[i]
  {
    if s != [] {
      var rest := Split(s[1..], sep);
      SplitPiecesFree(s[1..], sep);
      if s[0] != sep {
        var ws := Split(s, sep);
        assert ws == [[s[0]] + rest[0]] + rest[1..];
        assert sep !in [s[0]] + rest[0];
        forall i | 1 <= i < |ws| ensures sep !in ws[i] {
          assert ws[i] == rest[i];
        }
      }
    }
  }

  /** `ws.join(sep)`: n pieces free of the separator are joined by n - 1 separators. */
  function Join(ws: seq<string>, sep: char): (s: string)
    ensures |ws| >= 1 && (forall i :: 0 <= i < |ws| ==> sep !in ws[i]) ==> Occurrences(s, sep) == |ws| - 1
  {
    if ws == [] then ""
    else if |ws| == 1 then
      assert sep !in ws[0] ==> Occurrences(ws[0], sep) == 0 by {
        if sep !in ws[0] { OccurrencesAbsent(ws[0], sep); }
      }
      ws[0]
    else
      var rest := Join(ws[1..], sep);
      assert forall i :: 0 <= i < |ws[1..]| ==> ws[1..][i] == ws[i + 1];
      assert sep !in ws[0] ==> Occurrences(ws[0] + [sep] + rest, sep) == Occurrences(rest, sep) + 1 by {
        if sep !in ws[0] {
          OccurrencesAbsent(ws[0], sep);
          OccurrencesAppend(ws[0], [sep], sep);
          OccurrencesAppend(ws[0] + [sep], rest, sep);
        }
      }
      ws[0] + [sep] + rest
  }

  /** Joining the pieces of a split restores the string. */
  lemma {:induction false} JoinSplit(s: string, sep: char)
    ensures Join(Split(s, sep), sep) == s
  {
    if s != [] {
      var rest := Split(s[1..], sep);
      JoinSplit(s[1..], sep);
      assert Join(rest, sep) == s[1..];
      var ws := Split(s, sep);
      if s[0] == sep {
        assert ws == [""] + rest;
        assert Join(ws, sep) == "" + [sep] + Join(rest, sep);
        assert [s[0]] + s[1..] == s;
      } else if |rest| == 1 {
        assert ws == [[s[0]] + rest[0]];
        assert Join(rest, sep) == rest[0];
        assert [s[0]] + s[1..] == s;
      } else {
        var tail := Join(rest[1..], sep);
        assert ws == [[s[0]] + rest[0]] + rest[1..];
        assert ws[1..] == rest[1..];
        assert Join(ws, sep) == ([s[0]] + rest[0]) + [sep] + tail;
        assert Join(rest, sep) == rest[0] + [sep] + tail;
        AppendAssociates([s[0]], rest[0], [sep] + tail);
        AppendAssociates([s[0]] + rest[0], [sep], tail);
        AppendAssociates(rest[0], [sep], tail);
        assert [s[0]] + s[1..] == s;
      }
    }
  }

  /** Concatenation is associative; stated outright, it spares the solver a search. */
  lemma AppendAssociates(a: string, b: string, c: string)
    ensures a + (b + c) == (a + b) + c
  {
  }

  /** Splitting a join of separator-free pieces gives the pieces back. */
  lemma {:induction false} SplitJoin(ws: seq<string>, sep: char)
    requires |ws| >= 1
    requires forall i :: 0 <= i < |ws| ==> sep !in ws[i]
    ensures Split(Join(ws, sep), sep) == ws
  {
    if |ws| == 1 {
      SplitWord(ws[0], sep);
    } else {
      SplitJoin(ws[1..], sep);
      SplitAppend(ws[0], Join(ws[1..], sep), sep);
      assert [ws[0]] + ws[1..] == ws;
    }
  }

  lemma {:induction false} SplitWord(w: string, sep: char)
    requires sep !in w
    ensures Split(w, sep) == [w]
  {
    if w != [] {
      assert w[0] in w;
      SplitWord(w[1..], sep);
      assert [w[0]] + w[1..] == w;
    }
  }

  lemma {:induction false} SplitAppend(w: string, t: string, sep: char)
    requires sep !in w
    ensures Split(w + [sep] + t, sep) == [w] + Split(t, sep)
  {
    if w == [] {
      assert ([sep] + t)[1..] == t;
    } else {
      assert (w + [sep] + t)[0] == w[0] && w[0] in w;
      assert (w + [sep] + t)[1..] == w[1..] + [sep] + t;
      SplitAppend(w[1..], t, sep);
      assert [w[0]] + w[1..] == w;
    }
  }
}
