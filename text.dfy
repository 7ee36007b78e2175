/** The JavaScript string built-ins the core relies on, over `seq<char>`:
    `toLowerCase` (ASCII letters), `includes`, `trim`, `split(/\s+/)`, the
    regular-expression classes `\s`, `\w` and `\d`, and the default string
    order that `Array.prototype.sort()` uses. */
module Text {

  /** JavaScript's `\s`: the characters `trim` also removes. */
  predicate IsSpace(c: char)
  {
    || c == ' ' || c == '\t' || c == '\n' || c == '\r' || c == '\U{000B}' || c == '\U{000C}'
    || c == '\U{00A0}' || c == '\U{1680}' || ('\U{2000}' <= c <= '\U{200A}')
    || c == '\U{2028}' || c == '\U{2029}' || c == '\U{202F}' || c == '\U{205F}'
    || c == '\U{3000}' || c == '\U{FEFF}'
  }

  /** JavaScript's `\d` (ASCII digits only). */
  predicate IsDigit(c: char)
  {
    '0' <= c <= '9'
  }

  /** JavaScript's `\w` without the `u` flag: `[A-Za-z0-9_]`. */
  predicate IsWordChar(c: char)
  {
    ('a' <= c <= 'z') || ('A' <= c <= 'Z') || IsDigit(c) || c == '_'
  }

  predicate IsUpper(c: char)
  {
    'A' <= c <= 'Z'
  }

  function LowerChar(c: char): char
  {
    if IsUpper(c) then (c as int + 32) as char else c
  }

  function UpperChar(c: char): char
  {
    if 'a' <= c <= 'z' then (c as int - 32) as char else c
  }

  /** `toLowerCase`, on the ASCII letters. */
  function ToLower(s: string): string
  {
    seq(|s|, i requires 0 <= i < |s| => LowerChar(s[i]))
  }

  /** `toUpperCase`, on the ASCII letters. */
  function ToUpper(s: string): string
  {
    seq(|s|, i requires 0 <= i < |s| => UpperChar(s[i]))
  }

  /** A lower-cased string has no upper-case letter left. */
  lemma ToLowerHasNoUpper(s: string)
    ensures forall i :: 0 <= i < |ToLower(s)| ==> !IsUpper(ToLower(s)[i])
  {
  }

  /** Lower-casing undoes upper-casing: the two spellings of a text agree once lower-cased. */
  lemma LowerOfUpper(s: string)
    ensures ToLower(ToUpper(s)) == ToLower(s)
  {
    assert |ToLower(ToUpper(s))| == |ToLower(s)|;
    forall i | 0 <= i < |s| ensures ToLower(ToUpper(s))[i] == ToLower(s)[i] {
      var c := s[i];
      assert ToUpper(s)[i] == UpperChar(c);
    }
  }

  lemma ToLowerIdempotent(s: string)
    ensures ToLower(ToLower(s)) == ToLower(s)
  {
    assert |ToLower(ToLower(s))| == |ToLower(s)|;
    forall i | 0 <= i < |s| ensures ToLower(ToLower(s))[i] == ToLower(s)[i] {
      assert ToLower(s)[i] == LowerChar(s[i]);
    }
  }

  /** `s.includes(t)`: `t` occurs in `s` at some position. */
  predicate Contains(s: string, t: string)
  {
    exists i :: 0 <= i <= |s| && t <= s[i..]
  }

  lemma ContainsAt(s: string, t: string, i: nat)
    requires i + |t| <= |s| && t == s[i..i + |t|]
    ensures Contains(s, t)
  {
    assert t <= s[i..];
  }

  /** Every string includes the empty string. */
  lemma ContainsEmpty(s: string)
    ensures Contains(s, "")
  {
    ContainsAt(s, "", 0);
  }

  /** A string that includes `t` is at least as long as `t`. */
  lemma ContainsLonger(s: string, t: string)
    requires Contains(s, t)
    ensures |t| <= |s|
  {
    var i :| 0 <= i <= |s| && t <= s[i..];
  }

  /** Lower-casing both sides keeps an occurrence. */
  lemma ContainsToLower(s: string, t: string)
    requires Contains(s, t)
    ensures Contains(ToLower(s), ToLower(t))
  {
    var i :| 0 <= i <= |s| && t <= s[i..];
    assert t == s[i..i + |t|];
    assert ToLower(t) == ToLower(s)[i..i + |t|];
    ContainsAt(ToLower(s), ToLower(t), i);
  }

  /** `s.trimStart()`. */
  function TrimStart(s: string): (r: string)
    ensures |r| <= |s| && r == s[|s| - |r|..]
    ensures r == [] || !IsSpace(r[0])
  {
    if s != [] && IsSpace(s[0]) then TrimStart(s[1..]) else s
  }

  /** `s.trimEnd()`. */
  function TrimEnd(s: string): (r: string)
    ensures |r| <= |s| && r == s[..|r|]
    ensures r == [] || !IsSpace(r[|r| - 1])
  {
    if s != [] && IsSpace(s[|s| - 1]) then TrimEnd(s[..|s| - 1]) else s
  }

  /** `s.trim()`. */
  function Trim(s: string): (r: string)
    ensures r == [] || (!IsSpace(r[0]) && !IsSpace(r[|r| - 1]))
  {
    TrimEnd(TrimStart(s))
  }

  /** `s.split(/\s+/)`: the pieces between maximal runs of white space;
      `cur` is the piece read so far. A leading or trailing run yields an
      empty first or last piece, and the empty string yields `[""]`. */
  function SplitFrom(s: string, cur: string): (r: seq<string>)
    decreases |s|
    ensures |r| >= 1
  {
    if s == [] then [cur]
    else if IsSpace(s[0]) then [cur] + SplitFrom(TrimStart(s), "")
    else SplitFrom(s[1..], cur + [s[0]])
  }

  function SplitOnSpace(s: string): seq<string>
  {
    SplitFrom(s, "")
  }

  predicate NoSpace(s: string)
  {
    forall i :: 0 <= i < |s| ==> !IsSpace(s[i])
  }

  /** No piece produced by `split(/\s+/)` contains white space. */
  lemma {:induction false} SplitFromNoSpace(s: string, cur: string)
    requires NoSpace(cur)
    ensures forall k :: 0 <= k < |SplitFrom(s, cur)| ==> NoSpace(SplitFrom(s, cur)[k])
    decreases |s|
  {
    if s == [] {
    } else if IsSpace(s[0]) {
      SplitFromNoSpace(TrimStart(s), "");
    } else {
      SplitFromNoSpace(s[1..], cur + [s[0]]);
    }
  }

  /** The pieces, joined back with the separators removed, are the input less its white space. */
  function Squeeze(s: string): string
  {
    if s == [] then [] else (if IsSpace(s[0]) then [] else [s[0]]) + Squeeze(s[1..])
  }

  function Concat(ss: seq<string>): string
  {
    if ss == [] then [] else ss[0] + Concat(ss[1..])
  }

  lemma SqueezeAppend(a: string, b: string)
    ensures Squeeze(a + b) == Squeeze(a) + Squeeze(b)
  {
    if a == [] {
      assert a + b == b;
    } else {
      assert (a + b)[1..] == a[1..] + b;
      SqueezeAppend(a[1..], b);
    }
  }

  lemma {:induction false} SqueezeOfSpaces(s: string)
    requires forall i :: 0 <= i < |s| ==> IsSpace(s[i])
    ensures Squeeze(s) == []
  {
    if s != [] {
      SqueezeOfSpaces(s[1..]);
    }
  }

  lemma {:induction false} SqueezeTrimStart(s: string)
    ensures Squeeze(TrimStart(s)) == Squeeze(s)
  {
    if s != [] && IsSpace(s[0]) {
      SqueezeTrimStart(s[1..]);
    }
  }

  /** Nothing but white space is lost by `split(/\s+/)`. */
  lemma {:induction false} SplitFromKeepsText(s: string, cur: string)
    requires NoSpace(cur)
    ensures Concat(SplitFrom(s, cur)) == cur + Squeeze(s)
    decreases |s|
  {
    if s == [] {
      assert Concat([cur]) == cur + Concat([]);
    } else if IsSpace(s[0]) {
      SplitFromKeepsText(TrimStart(s), "");
      SqueezeTrimStart(s);
      var rest := SplitFrom(TrimStart(s), "");
      assert ([cur] + rest)[1..] == rest;
    } else {
      SplitFromKeepsText(s[1..], cur + [s[0]]);
      assert s == [s[0]] + s[1..];
      SqueezeAppend([s[0]], s[1..]);
    }
  }

  /** The default order of `Array.prototype.sort()` on strings: lexicographic by character. */
  predicate LexLess(a: string, b: string)
  {
    if a == [] then b != []
    else if b == [] then false
    else if a[0] != b[0] then a[0] < b[0]
    else LexLess(a[1..], b[1..])
  }

  lemma {:induction false} LexLessIrreflexive(a: string)
    ensures !LexLess(a, a)
  {
    if a != [] {
      LexLessIrreflexive(a[1..]);
    }
  }

  lemma {:induction false} LexLessTotal(a: string, b: string)
    ensures a == b || LexLess(a, b) || LexLess(b, a)
  {
    if a != [] && b != [] && a[0] == b[0] {
      LexLessTotal(a[1..], b[1..]);
      assert a == [a[0]] + a[1..] && b == [b[0]] + b[1..];
    }
  }

  lemma {:induction false} LexLessTransitive(a: string, b: string, c: string)
    requires LexLess(a, b) && LexLess(b, c)
    ensures LexLess(a, c)
  {
    if a != [] && b != [] && c != [] && a[0] == b[0] && b[0] == c[0] {
      LexLessTransitive(a[1..], b[1..], c[1..]);
    }
  }

  lemma LexLessAsymmetric(a: string, b: string)
    requires LexLess(a, b)
    ensures !LexLess(b, a)
  {
    if LexLess(b, a) {
      LexLessTransitive(a, b, a);
      LexLessIrreflexive(a);
    }
  }

  /** `a` does not come after `b`. */
  predicate LexLe(a: string, b: string)
  {
    !LexLess(b, a)
  }

  lemma LexLeTransitive(a: string, b: string, c: string)
    requires LexLe(a, b) && LexLe(b, c)
    ensures LexLe(a, c)
  {
    LexLessTotal(a, b);
    LexLessTotal(b, c);
    if a != b && b != c {
      LexLessTransitive(a, b, c);
      LexLessAsymmetric(a, c);
    } else if a != b {
      LexLessAsymmetric(a, b);
    } else if b != c {
      LexLessAsymmetric(b, c);
    } else {
      LexLessIrreflexive(a);
    }
  }

  ghost predicate SortedAsc(s: seq<string>)
  {
    forall i, j :: 0 <= i < j < |s| ==> LexLe(s[i], s[j])
  }

  function InsertAsc(x: string, s: seq<string>): seq<string>
  {
    if s == [] || LexLe(x, s[0]) then [x] + s else [s[0]] + InsertAsc(x, s[1..])
  }

  /** `Array.prototype.sort()` on strings. */
  function SortStrings(xs: seq<string>): seq<string>
  {
    if xs == [] then [] else InsertAsc(xs[0], SortStrings(xs[1..]))
  }

  lemma {:induction false} InsertAscBounded(x: string, s: seq<string>, b: string)
    requires LexLe(b, x)
    requires forall j :: 0 <= j < |s| ==> LexLe(b, s[j])
    ensures forall j :: 0 <= j < |InsertAsc(x, s)| ==> LexLe(b, InsertAsc(x, s)[j])
  {
    if s != [] && !LexLe(x, s[0]) {
      InsertAscBounded(x, s[1..], b);
    }
  }

  lemma {:induction false} InsertAscSorted(x: string, s: seq<string>)
    requires SortedAsc(s)
    ensures SortedAsc(InsertAsc(x, s))
  {
    var r := InsertAsc(x, s);
    if s == [] || LexLe(x, s[0]) {
      assert r == [x] + s;
      forall i, j | 0 <= i < j < |r| ensures LexLe(r[i], r[j]) {
        if i == 0 {
          assert r[j] == s[j - 1];
          if j > 1 {
            LexLeTransitive(x, s[0], s[j - 1]);
          }
        } else {
          assert r[i] == s[i - 1] && r[j] == s[j - 1];
        }
      }
    } else {
      var t := InsertAsc(x, s[1..]);
      InsertAscSorted(x, s[1..]);
      LexLessAsymmetric(s[0], x);
      InsertAscBounded(x, s[1..], s[0]);
      assert r == [s[0]] + t;
      forall i, j | 0 <= i < j < |r| ensures LexLe(r[i], r[j]) {
        if i == 0 {
          assert r[j] == t[j - 1];
        } else {
          assert r[i] == t[i - 1] && r[j] == t[j - 1];
        }
      }
    }
  }

  lemma {:induction false} InsertAscMultiset(x: string, s: seq<string>)
    ensures multiset(InsertAsc(x, s)) == multiset(s) + multiset{x}
  {
    if s != [] && !LexLe(x, s[0]) {
      InsertAscMultiset(x, s[1..]);
      assert s == [s[0]] + s[1..];
    }
  }

  /** The default sort returns a rearrangement of its input in ascending order. */
  lemma {:induction false} SortStringsCorrect(xs: seq<string>)
    ensures SortedAsc(SortStrings(xs))
    ensures multiset(SortStrings(xs)) == multiset(xs)
  {
    if xs != [] {
      SortStringsCorrect(xs[1..]);
      InsertAscSorted(xs[0], SortStrings(xs[1..]));
      InsertAscMultiset(xs[0], SortStrings(xs[1..]));
      assert xs == [xs[0]] + xs[1..];
    }
  }
}
