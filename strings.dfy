/**
 * The handful of Python string operations the feed builders rely on:
 * `str.split()` with no argument, `str.split(sep)`, `sep.join(parts)`,
 * `str.replace(c, "")`, `str.replace(a, b)` for one-character strings,
 * `str.lower()` on ASCII letters and `str(n)` for integers, each with the
 * inverse or the characterisation that says what it computes.
 */
module Strings {

  /** The characters Python's `str.isspace` accepts, which `str.split()` breaks on. */
  predicate IsSpace(c: char)
  {
    ('\t' <= c <= '\r') || ('\U{1C}' <= c <= ' ') || c == '\U{85}' || c == '\U{A0}' ||
    c == '\U{1680}' || ('\U{2000}' <= c <= '\U{200A}') || c == '\U{2028}' || c == '\U{2029}' ||
    c == '\U{202F}' || c == '\U{205F}' || c == '\U{3000}'
  }

  /** A word as `str.split()` returns it: non-empty, no whitespace. */
  predicate IsWord(w: string)
  {
    |w| > 0 && forall i :: 0 <= i < |w| ==> !IsSpace(w[i])
  }

  /** Length of the run of non-whitespace characters at the front of `s`. */
  function TokenLength(s: string): (n: nat)
    ensures n <= |s|
    ensures forall i :: 0 <= i < n ==> !IsSpace(s[i])
    ensures n < |s| ==> IsSpace(s[n])
  {
    if s == [] || IsSpace(s[0]) then 0 else 1 + TokenLength(s[1..])
  }

  /** Python's `s.split()`: the maximal runs of non-whitespace characters, in order. */
  function Words(s: string): (ws: seq<string>)
    ensures forall k :: 0 <= k < |ws| ==> IsWord(ws[k])
    decreases |s|
  {
    if s == [] then []
    else if IsSpace(s[0]) then Words(s[1..])
    else
      var n := TokenLength(s);
      [s[..n]] + Words(s[n..])
  }

  /** Python's `sep.join(parts)`: it starts with the first part. */
  function JoinOn(parts: seq<string>, sep: string): (s: string)
    ensures |parts| > 0 ==> |parts[0]| <= |s| && s[..|parts[0]|] == parts[0]
  {
    if |parts| == 0 then ""
    else if |parts| == 1 then parts[0]
    else parts[0] + sep + JoinOn(parts[1..], sep)
  }

  /**
   * Python's `s.split(sep)`: always at least one piece, scanning left to
   * right, and joining the pieces with `sep` gives `s` back.
   */
  function SplitOn(s: string, sep: string): (parts: seq<string>)
    requires |sep| > 0
    ensures |parts| >= 1
    ensures JoinOn(parts, sep) == s
  {
    if s == [] then [""]
    else if |sep| <= |s| && s[..|sep|] == sep then
      var rest := SplitOn(s[|sep|..], sep);
      assert ([""] + rest)[1..] == rest;
      assert s == sep + s[|sep|..];
      [""] + rest
    else
      var rest := SplitOn(s[1..], sep);
      var parts := [[s[0]] + rest[0]] + rest[1..];
      assert parts[1..] == rest[1..];
      assert JoinOn(parts, sep) == [s[0]] + JoinOn(rest, sep) by {
        if |rest| > 1 {
          assert JoinOn(rest, sep) == rest[0] + sep + JoinOn(rest[1..], sep);
          assert JoinOn(parts, sep) == [s[0]] + rest[0] + sep + JoinOn(rest[1..], sep);
        }
      }
      assert s == [s[0]] + s[1..];
      parts
  }

  /** No character of `s` occurs in `chars`. */
  predicate Avoids(s: string, chars: string)
  {
    forall i :: 0 <= i < |s| ==> s[i] !in chars
  }

  lemma {:induction false} TokenOfWord(w: string, t: string)
    requires IsWord(w)
    requires t == [] || IsSpace(t[0])
    ensures TokenLength(w + t) == |w|
    decreases |w|
  {
    if |w| > 1 {
      assert (w + t)[1..] == w[1..] + t;
      TokenOfWord(w[1..], t);
    } else {
      assert (w + t)[1..] == t;
    }
  }

  /** Splitting words joined by single spaces gives the words back. */
  lemma {:induction false} WordsOfJoin(ws: seq<string>)
    requires forall k :: 0 <= k < |ws| ==> IsWord(ws[k])
    ensures Words(JoinOn(ws, " ")) == ws
    decreases |ws|
  {
    if |ws| == 1 {
      var w := ws[0];
      TokenOfWord(w, []);
      assert w + [] == w;
      assert w[|w|..] == [];
    } else if |ws| > 1 {
      var w, rest := ws[0], JoinOn(ws[1..], " ");
      var s := w + " " + rest;
      assert s == w + (" " + rest);
      TokenOfWord(w, " " + rest);
      assert s[..|w|] == w;
      assert s[|w|..] == " " + rest;
      assert (" " + rest)[1..] == rest;
      WordsOfJoin(ws[1..]);
    }
  }

  lemma {:induction false} SplitOnAvoiding(a: string, sep: string)
    requires |sep| > 0 && Avoids(a, sep)
    ensures SplitOn(a, sep) == [a]
    decreases |a|
  {
    if a != [] {
      assert a[0] !in sep;
      assert sep[0] in sep;
      assert |sep| <= |a| ==> a[..|sep|] != sep by {
        if |sep| <= |a| { assert a[..|sep|][0] == a[0]; }
      }
      SplitOnAvoiding(a[1..], sep);
      assert [a[0]] + a[1..] == a;
    }
  }

  lemma {:induction false} SplitOnFirst(a: string, sep: string, b: string)
    requires |sep| > 0 && Avoids(a, sep)
    ensures SplitOn(a + sep + b, sep) == [a] + SplitOn(b, sep)
    decreases |a|
  {
    var s := a + sep + b;
    if a == [] {
      assert s == sep + b;
      assert s[..|sep|] == sep;
      assert s[|sep|..] == b;
    } else {
      assert a[0] !in sep;
      assert sep[0] in sep;
      assert s[..|sep|] != sep by { assert s[0] == a[0]; }
      assert s[1..] == a[1..] + sep + b;
      SplitOnFirst(a[1..], sep, b);
      assert [a[0]] + a[1..] == a;
    }
  }

  /** Python's `s.split(sep)` undoes `sep.join(parts)` when no part shares a character with `sep`. */
  lemma {:induction false} SplitOnJoin(parts: seq<string>, sep: string)
    requires |sep| > 0 && |parts| >= 1
    requires forall k :: 0 <= k < |parts| ==> Avoids(parts[k], sep)
    ensures SplitOn(JoinOn(parts, sep), sep) == parts
    decreases |parts|
  {
    if |parts| == 1 {
      SplitOnAvoiding(parts[0], sep);
    } else {
      SplitOnFirst(parts[0], sep, JoinOn(parts[1..], sep));
      SplitOnJoin(parts[1..], sep);
    }
  }

  /** Joining parts that avoid a set of characters, with a separator that avoids it too. */
  lemma {:induction false} JoinOnAvoids(parts: seq<string>, sep: string, chars: string)
    requires Avoids(sep, chars)
    requires forall k :: 0 <= k < |parts| ==> Avoids(parts[k], chars)
    ensures Avoids(JoinOn(parts, sep), chars)
    decreases |parts|
  {
    if |parts| > 1 {
      JoinOnAvoids(parts[1..], sep, chars);
    }
  }

  /**
   * When two strings end in `d` followed by a segment free of `d`, equal
   * strings have equal segments and equal remainders.
   */
  lemma LastSegment(x1: string, c1: string, x2: string, c2: string, d: char)
    requires d !in c1 && d !in c2
    requires x1 + [d] + c1 == x2 + [d] + c2
    ensures x1 == x2 && c1 == c2
  {
    var s := x1 + [d] + c1;
    assert s[|x1|] == d && s[|x2|] == d;
    assert forall k :: |x1| < k < |s| ==> s[k] == c1[k - |x1| - 1];
    assert forall k :: |x2| < k < |s| ==> s[k] == c2[k - |x2| - 1];
    assert |x1| == |x2|;
    assert x1 == s[..|x1|] && x2 == s[..|x2|];
    assert c1 == s[|x1| + 1..] && c2 == s[|x2| + 1..];
  }

  lemma WordHasNoBlank(w: string)
    requires IsWord(w)
    ensures ' ' !in w
  {
  }

  /** Python's `s.replace(c, "")` for a one-character `c`: drops every `c` and keeps the rest. */
  function RemoveChar(s: string, c: char): (r: string)
    ensures c !in r
    ensures forall x :: x != c ==> multiset(r)[x] == multiset(s)[x]
  {
    if s == [] then []
    else
      var rest := RemoveChar(s[1..], c);
      assert s == [s[0]] + s[1..];
      if s[0] == c then rest else [s[0]] + rest
  }

  lemma {:induction false} RemoveCharAppend(a: string, b: string, c: char)
    ensures RemoveChar(a + b, c) == RemoveChar(a, c) + RemoveChar(b, c)
    decreases |a|
  {
    if a != [] {
      assert (a + b)[1..] == a[1..] + b;
      RemoveCharAppend(a[1..], b, c);
    } else {
      assert a + b == b;
    }
  }

  lemma {:induction false} RemoveCharAbsent(s: string, c: char)
    requires c !in s
    ensures RemoveChar(s, c) == s
    decreases |s|
  {
    if s != [] {
      RemoveCharAbsent(s[1..], c);
    }
  }

  /** Python's `s.replace(a, b)` for one-character `a` and `b`. */
  function ReplaceChar(s: string, a: char, b: char): (r: string)
    ensures |r| == |s|
    ensures forall i :: 0 <= i < |s| ==> r[i] == if s[i] == a then b else s[i]
  {
    if s == [] then [] else [if s[0] == a then b else s[0]] + ReplaceChar(s[1..], a, b)
  }

  /** Python's `c.lower()` on ASCII letters; every other character is kept. */
  function LowerChar(c: char): char
  {
    if 'A' <= c <= 'Z' then (c as int - 'A' as int + 'a' as int) as char else c
  }

  /** Python's `s.lower()`, restricted to ASCII letters. */
  function Lower(s: string): (r: string)
    ensures |r| == |s|
    ensures forall i :: 0 <= i < |s| ==> r[i] == LowerChar(s[i])
  {
    if s == [] then [] else [LowerChar(s[0])] + Lower(s[1..])
  }

  predicate IsDigit(c: char)
  {
    '0' <= c <= '9'
  }

  function DigitChar(d: nat): (c: char)
    requires d < 10
    ensures IsDigit(c)
  {
    (d + '0' as int) as char
  }

  function DigitValue(c: char): nat
  {
    if IsDigit(c) then c as int - '0' as int else 0
  }

  /** Decimal digits of `n`, most significant first, without leading zeros. */
  function NatToString(n: nat): (s: string)
    ensures |s| >= 1
    ensures forall i :: 0 <= i < |s| ==> IsDigit(s[i])
    ensures |s| > 1 ==> s[0] != '0'
  {
    if n < 10 then [DigitChar(n)] else NatToString(n / 10) + [DigitChar(n % 10)]
  }

  /** Reads a string of decimal digits. */
  function ParseNat(s: string): nat
  {
    if s == [] then 0 else 10 * ParseNat(s[..|s| - 1]) + DigitValue(s[|s| - 1])
  }

  lemma {:induction false} ParseNatToString(n: nat)
    ensures ParseNat(NatToString(n)) == n
  {
    var s := NatToString(n);
    if n < 10 {
      assert s[..|s| - 1] == [];
    } else {
      assert s[..|s| - 1] == NatToString(n / 10);
      ParseNatToString(n / 10);
    }
  }

  /** Python's `str(i)` for an integer. */
  function IntToString(i: int): (s: string)
    ensures |s| >= 1
    ensures forall k :: 0 <= k < |s| ==> IsDigit(s[k]) || s[k] == '-'
  {
    if i < 0 then "-" + NatToString(-i) else NatToString(i)
  }

  /** The decimal text of a positive number does not start with `0`. */
  lemma {:induction false} NatToStringLeading(n: nat)
    requires n > 0
    ensures NatToString(n)[0] != '0'
  {
    if n >= 10 {
      NatToStringLeading(n / 10);
      assert NatToString(n)[0] == NatToString(n / 10)[0];
    }
  }

  /**
   * `str(i)` is canonical: a minus sign first exactly for negatives, digits
   * everywhere else, and no leading `0` unless the number is `0` itself.
   */
  lemma IntToStringShape(i: int)
    ensures var s := IntToString(i);
      (s[0] == '-') == (i < 0) &&
      (s[0] != '-' ==> IsDigit(s[0])) &&
      (forall k :: 1 <= k < |s| ==> IsDigit(s[k])) &&
      (i < 0 ==> |s| >= 2 && s[1] != '0') &&
      (i > 0 ==> s[0] != '0') &&
      (i == 0 ==> s == "0")
  {
    var s := IntToString(i);
    if i < 0 {
      NatToStringLeading(-i);
      assert s[1..] == NatToString(-i);
    } else if i > 0 {
      NatToStringLeading(i);
    }
  }

  /** Python's `int(s)` on what `str` produces. */
  function ParseInt(s: string): int
  {
    if |s| > 0 && s[0] == '-' then -(ParseNat(s[1..]) as int) else ParseNat(s)
  }

  lemma IntToStringRoundTrip(i: int)
    ensures ParseInt(IntToString(i)) == i
  {
    if i < 0 {
      assert ("-" + NatToString(-i))[1..] == NatToString(-i);
      ParseNatToString(-i);
    } else {
      ParseNatToString(i);
    }
  }
}
