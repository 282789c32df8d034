/** The string primitives the core relies on, with JavaScript's meaning:
    `split` on one character, `trim`, `split(/\s+/)`, `replace(/\s+/g, r)`,
    and `toUpperCase`/`toLowerCase` restricted to ASCII letters. */
module Text {
  import opened Seqs

  /** The characters JavaScript's `\s` class matches; `String.prototype.trim`
      strips exactly the same set. */
  const WHITESPACE: set<char> := {
    '\t', '\n', '\U{B}', '\U{C}', '\r', ' ', '\U{A0}', '\U{1680}',
    '\U{2000}', '\U{2001}', '\U{2002}', '\U{2003}', '\U{2004}', '\U{2005}',
    '\U{2006}', '\U{2007}', '\U{2008}', '\U{2009}', '\U{200A}',
    '\U{2028}', '\U{2029}', '\U{202F}', '\U{205F}', '\U{3000}', '\U{FEFF}'
  }

  predicate IsSpace(c: char) {
    c in WHITESPACE
  }

  /** Printable ASCII other than the space is never whitespace. */
  lemma GraphicNotSpace(c: char)
    requires '!' <= c <= '~'
    ensures !IsSpace(c)
  {
  }

  /** A word of printable ASCII other than the space has no whitespace. */
  lemma GraphicWord(w: string)
    requires forall k :: 0 <= k < |w| ==> '!' <= w[k] <= '~'
    ensures NoSpace(w)
  {
    forall k | 0 <= k < |w| ensures !IsSpace(w[k]) {
      GraphicNotSpace(w[k]);
    }
  }

  predicate NoSpace(s: string) {
    forall k :: 0 <= k < |s| ==> !IsSpace(s[k])
  }

  predicate AllSpace(s: string) {
    forall k :: 0 <= k < |s| ==> IsSpace(s[k])
  }

  // ---------------------------------------------------------------------------
  // split on a single character

  /** Index of the first occurrence of `c` in `s`, or `|s|` when there is none. */
  function IndexOf(s: string, c: char): (i: nat)
    ensures i <= |s|
    ensures i < |s| ==> s[i] == c
    ensures forall j :: 0 <= j < i ==> s[j] != c
  {
    if s == [] then 0
    else if s[0] == c then 0
    else 1 + IndexOf(s[1..], c)
  }

  /** `s.split(sep)` for a one-character separator: the pieces between the
      separators, in order, always at least one (`"".split(".")` is `[""]`). */
  function Split(s: string, sep: char): (parts: seq<string>)
    ensures |parts| >= 1
    ensures forall k :: 0 <= k < |parts| ==> sep !in parts[k]
    ensures parts[0] == s[..IndexOf(s, sep)]
    decreases |s|
  {
    var i := IndexOf(s, sep);
    if i == |s| then [s] else [s[..i]] + Split(s[i + 1..], sep)
  }

  /** `parts.join(sep)` for a one-character separator. */
  function Join(parts: seq<string>, sep: char): string
    requires |parts| >= 1
  {
    if |parts| == 1 then parts[0] else parts[0] + [sep] + Join(parts[1..], sep)
  }

  /** Splitting loses nothing: joining the pieces gives the string back. */
  lemma {:induction false} JoinSplit(s: string, sep: char)
    ensures Join(Split(s, sep), sep) == s
    decreases |s|
  {
    var i := IndexOf(s, sep);
    if i < |s| {
      var tail := Split(s[i + 1..], sep);
      assert Split(s, sep) == [s[..i]] + tail;
      JoinSplit(s[i + 1..], sep);
      assert Join(Split(s, sep), sep) == s[..i] + [sep] + s[i + 1..];
      Around(s, i);
    }
  }

  /** Pieces free of the separator are recovered by splitting their join. */
  lemma {:induction false} SplitJoin(parts: seq<string>, sep: char)
    requires |parts| >= 1
    requires forall k :: 0 <= k < |parts| ==> sep !in parts[k]
    ensures Split(Join(parts, sep), sep) == parts
  {
    var s := Join(parts, sep);
    if |parts| == 1 {
      assert s == parts[0];
      assert IndexOf(s, sep) == |s|;
      assert Split(s, sep) == [s];
    } else {
      var rest := Join(parts[1..], sep);
      assert s == parts[0] + [sep] + rest;
      assert s[|parts[0]|] == sep;
      assert IndexOf(s, sep) == |parts[0]|;
      assert s[|parts[0]| + 1..] == rest;
      assert s[..|parts[0]|] == parts[0];
      SplitJoin(parts[1..], sep);
      assert Split(s, sep) == [parts[0]] + parts[1..];
    }
  }

  // ---------------------------------------------------------------------------
  // trim, split(/\s+/) and replace(/\s+/g, rep), stated over positions of one
  // string so that no proof has to reason about slices of slices

  /** The first position at or after `from` that holds whitespace, or `|s|`. */
  function NextSpace(s: string, from: nat): (i: nat)
    requires from <= |s|
    ensures from <= i <= |s|
    ensures forall k :: from <= k < i ==> !IsSpace(s[k])
    ensures i < |s| ==> IsSpace(s[i])
    decreases |s| - from
  {
    if from == |s| || IsSpace(s[from]) then from else NextSpace(s, from + 1)
  }

  /** The first position at or after `from` that holds a non-blank, or `|s|`. */
  function NextNonSpace(s: string, from: nat): (i: nat)
    requires from <= |s|
    ensures from <= i <= |s|
    ensures forall k :: from <= k < i ==> IsSpace(s[k])
    ensures i < |s| ==> !IsSpace(s[i])
    decreases |s| - from
  {
    if from == |s| || !IsSpace(s[from]) then from else NextNonSpace(s, from + 1)
  }

  /** The end of `s[..to]` once its trailing whitespace is dropped. */
  function EndBeforeSpaces(s: string, to: nat): (e: nat)
    requires to <= |s|
    ensures e <= to
    ensures forall k :: e <= k < to ==> IsSpace(s[k])
    ensures e > 0 ==> !IsSpace(s[e - 1])
  {
    if to == 0 || !IsSpace(s[to - 1]) then to else EndBeforeSpaces(s, to - 1)
  }

  /** `s.trim()`: `s` without its leading and trailing whitespace. */
  function Trim(s: string): (r: string)
    ensures r != [] ==> !IsSpace(r[0]) && !IsSpace(r[|r| - 1])
  {
    var a := NextNonSpace(s, 0);
    if a == |s| then [] else s[a..EndBeforeSpaces(s, |s|)]
  }

  /** What `trim` returns is determined by the blank-free core of the string:
      whatever whitespace surrounds `t`, trimming yields `t`. */
  lemma TrimUnique(p: string, t: string, q: string)
    requires AllSpace(p) && AllSpace(q)
    requires t != [] ==> !IsSpace(t[0]) && !IsSpace(t[|t| - 1])
    ensures Trim(p + t + q) == t
  {
    var s := p + t + q;
    if t == [] {
      assert forall k :: 0 <= k < |s| ==> IsSpace(s[k]) by {
        forall k | 0 <= k < |s| ensures IsSpace(s[k]) {
          if k < |p| { assert s[k] == p[k]; } else { assert s[k] == q[k - |p|]; }
        }
      }
      assert NextNonSpace(s, 0) == |s|;
    } else {
      assert s[|p|] == t[0];
      assert forall k :: 0 <= k < |p| ==> s[k] == p[k];
      assert NextNonSpace(s, 0) == |p|;
      assert s[|p| + |t| - 1] == t[|t| - 1];
      assert forall k :: |p| + |t| <= k < |s| ==> s[k] == q[k - |p| - |t|];
      assert EndBeforeSpaces(s, |s|) == |p| + |t|;
      assert s[|p|..|p| + |t|] == t;
    }
  }

  lemma AllSpaceConcat(u: string, v: string)
    requires AllSpace(u) && AllSpace(v)
    ensures AllSpace(u + v)
  {
    forall k | 0 <= k < |u + v| ensures IsSpace((u + v)[k]) {
      if k < |u| { assert (u + v)[k] == u[k]; } else { assert (u + v)[k] == v[k - |u|]; }
    }
  }

  /** Leading and trailing whitespace do not change what `trim` returns. */
  lemma TrimIgnoresPadding(lead: string, s: string, trail: string)
    requires AllSpace(lead) && AllSpace(trail)
    ensures Trim(lead + s + trail) == Trim(s)
  {
    if NextNonSpace(s, 0) == |s| {
      TrimPaddingBlank(lead, s, trail);
    } else {
      TrimPaddingCore(lead, s, trail);
    }
  }

  lemma TrimPaddingBlank(lead: string, s: string, trail: string)
    requires AllSpace(lead) && AllSpace(trail)
    requires NextNonSpace(s, 0) == |s|
    ensures Trim(lead + s + trail) == Trim(s) == []
  {
    assert AllSpace(s);
    AllSpaceConcat(lead, s);
    AllSpaceConcat(lead + s, trail);
    TrimUnique(lead + s + trail, [], []);
    assert lead + s + trail + [] + [] == lead + s + trail;
  }

  lemma TrimPaddingCore(lead: string, s: string, trail: string)
    requires AllSpace(lead) && AllSpace(trail)
    requires NextNonSpace(s, 0) < |s|
    ensures Trim(lead + s + trail) == Trim(s)
  {
    var a := NextNonSpace(s, 0);
    var b := EndBeforeSpaces(s, |s|);
    assert !IsSpace(s[a]);
    assert BlankAround(s, a, b);
    TrimPaddedCore(lead, s, trail, a, b);
  }

  lemma TrimPaddedCore(lead: string, s: string, trail: string, a: nat, b: nat)
    requires AllSpace(lead) && AllSpace(trail)
    requires BlankAround(s, a, b)
    ensures Trim(lead + s + trail) == Trim(s)
  {
    PaddedPositions(lead, s, trail, a, b);
    SliceOfMiddle(lead, s, trail, a, b);
    TrimShifted(lead + s + trail, s, |lead|, a, b);
  }

  /** Two strings whose non-blank stretches are the same trim alike. */
  lemma TrimShifted(x: string, s: string, m: nat, a: nat, b: nat)
    requires BlankAround(s, a, b) && BlankAround(x, m + a, m + b)
    requires x[m + a..m + b] == s[a..b]
    ensures Trim(x) == Trim(s)
  {
    TrimIs(s, a, b);
    TrimIs(x, m + a, m + b);
  }

  /** Blank padding keeps the blank-prefix and blank-suffix shape of `s`. */
  lemma PaddedPositions(lead: string, s: string, trail: string, a: nat, b: nat)
    requires AllSpace(lead) && AllSpace(trail)
    requires BlankAround(s, a, b)
    ensures BlankAround(lead + s + trail, |lead| + a, |lead| + b)
  {
    var x := lead + s + trail;
    var m := |lead|;
    forall k | 0 <= k < m + a ensures IsSpace(x[k]) {
      if k < m { assert x[k] == lead[k]; } else { assert x[k] == s[k - m]; }
    }
    forall k | m + b <= k < |x| ensures IsSpace(x[k]) {
      if k < m + |s| { assert x[k] == s[k - m]; } else { assert x[k] == trail[k - m - |s|]; }
    }
    assert x[m + a] == s[a];
    assert x[m + b - 1] == s[b - 1];
  }

  /** `x[a..b]` is non-empty, starts and ends with a non-blank, and only
      whitespace lies outside it. */
  predicate BlankAround(x: string, a: nat, b: nat) {
    && a < b <= |x|
    && (forall k :: 0 <= k < a ==> IsSpace(x[k]))
    && (forall k :: b <= k < |x| ==> IsSpace(x[k]))
    && !IsSpace(x[a]) && !IsSpace(x[b - 1])
  }

  /** `trim` returns the stretch between the first and the last non-blank. */
  lemma TrimIs(x: string, a: nat, b: nat)
    requires BlankAround(x, a, b)
    ensures Trim(x) == x[a..b]
  {
    NextNonSpaceAt(x, 0, a);
    EndBeforeSpacesAt(x, |x|, b);
  }

  lemma NextNonSpaceAt(s: string, from: nat, n: nat)
    requires from <= n < |s|
    requires forall k :: from <= k < n ==> IsSpace(s[k])
    requires !IsSpace(s[n])
    ensures NextNonSpace(s, from) == n
  {
  }

  lemma EndBeforeSpacesAt(s: string, to: nat, e: nat)
    requires 0 < e <= to <= |s|
    requires forall k :: e <= k < to ==> IsSpace(s[k])
    requires !IsSpace(s[e - 1])
    ensures EndBeforeSpaces(s, to) == e
  {
  }

  /** `s.split(/\s+/)` on the part of `s` from position `from`: the pieces
      between maximal whitespace runs, always at least one. */
  function SplitFrom(s: string, from: nat): (parts: seq<string>)
    requires from <= |s|
    ensures |parts| >= 1
    ensures forall k :: 0 <= k < |parts| ==> NoSpace(parts[k])
    ensures parts[0] == s[from..NextSpace(s, from)]
    ensures (|parts| == 1) == (NextSpace(s, from) == |s|)
    decreases |s| - from
  {
    var i := NextSpace(s, from);
    if i == |s| then [s[from..]] else [s[from..i]] + SplitFrom(s, NextNonSpace(s, i))
  }

  /** `s.split(/\s+/)`: a leading or trailing whitespace run contributes an
      empty first or last piece, and the empty string splits into `[""]`. */
  function SplitOnSpaces(s: string): (parts: seq<string>)
    ensures |parts| >= 1
    ensures forall k :: 0 <= k < |parts| ==> NoSpace(parts[k])
  {
    SplitFrom(s, 0)
  }

  /** A blank-free string is one piece. */
  lemma OneWord(w: string)
    requires NoSpace(w)
    ensures SplitOnSpaces(w) == [w]
  {
    assert NextSpace(w, 0) == |w|;
  }

  /** When `s` ends in the word `s[j..]` preceded by whitespace, that word is
      the last piece. */
  lemma {:induction false} LastPiece(s: string, from: nat, j: nat)
    requires from < j < |s|
    requires IsSpace(s[j - 1])
    requires forall k :: j <= k < |s| ==> !IsSpace(s[k])
    ensures var parts := SplitFrom(s, from); |parts| >= 2 && parts[|parts| - 1] == s[j..]
    decreases |s| - from
  {
    var i := NextSpace(s, from);
    assert i <= j - 1;
    var n := NextNonSpace(s, i);
    assert !IsSpace(s[j]);
    assert n <= j;
    if n == j {
      assert NextSpace(s, j) == |s|;
    } else {
      LastPiece(s, n, j);
    }
  }

  /** `s.replace(/\s+/g, rep)` on the part of `s` from position `from`. */
  function ReplaceFrom(s: string, from: nat, rep: string): (r: string)
    requires from <= |s|
    decreases |s| - from
  {
    if from == |s| then []
    else if IsSpace(s[from]) then rep + ReplaceFrom(s, NextNonSpace(s, from), rep)
    else [s[from]] + ReplaceFrom(s, from + 1, rep)
  }

  /** `s.replace(/\s+/g, rep)`: each maximal whitespace run becomes one `rep`. */
  function ReplaceSpaceRuns(s: string, rep: string): (r: string)
    ensures NoSpace(rep) ==> NoSpace(r)
  {
    if NoSpace(rep) then ReplaceFromNoSpace(s, 0, rep); ReplaceFrom(s, 0, rep)
    else ReplaceFrom(s, 0, rep)
  }

  lemma {:induction false} ReplaceFromNoSpace(s: string, from: nat, rep: string)
    requires from <= |s| && NoSpace(rep)
    ensures NoSpace(ReplaceFrom(s, from, rep))
    decreases |s| - from
  {
    if from < |s| {
      if IsSpace(s[from]) {
        ReplaceFromNoSpace(s, NextNonSpace(s, from), rep);
        NoSpaceConcat(rep, ReplaceFrom(s, NextNonSpace(s, from), rep));
      } else {
        ReplaceFromNoSpace(s, from + 1, rep);
        NoSpaceConcat([s[from]], ReplaceFrom(s, from + 1, rep));
      }
    }
  }

  lemma NoSpaceConcat(u: string, v: string)
    requires NoSpace(u) && NoSpace(v)
    ensures NoSpace(u + v)
  {
    forall k | 0 <= k < |u + v| ensures !IsSpace((u + v)[k]) {
      if k < |u| { assert (u + v)[k] == u[k]; } else { assert (u + v)[k] == v[k - |u|]; }
    }
  }

  /** `parts.join(sep)` for a string separator. */
  function JoinWith(parts: seq<string>, sep: string): string
    requires |parts| >= 1
  {
    if |parts| == 1 then parts[0] else parts[0] + sep + JoinWith(parts[1..], sep)
  }

  lemma {:induction false} ReplaceKeepsWord(s: string, from: nat, rep: string)
    requires from <= |s|
    ensures ReplaceFrom(s, from, rep) == s[from..NextSpace(s, from)] + ReplaceFrom(s, NextSpace(s, from), rep)
    decreases |s| - from
  {
    var i := NextSpace(s, from);
    if from < |s| && !IsSpace(s[from]) {
      assert NextSpace(s, from + 1) == i;
      ReplaceKeepsWord(s, from + 1, rep);
      assert ReplaceFrom(s, from, rep) == [s[from]] + ReplaceFrom(s, from + 1, rep);
      ConsSlice(s, from, i, ReplaceFrom(s, i, rep));
    } else {
      assert i == from;
      assert s[from..i] == [];
    }
  }

  lemma ConsSlice(s: string, from: nat, i: nat, tail: string)
    requires from < i <= |s|
    ensures [s[from]] + (s[from + 1..i] + tail) == s[from..i] + tail
  {
    assert s[from..i] == [s[from]] + s[from + 1..i];
  }

  /** The two JavaScript idioms agree: replacing every whitespace run by `rep`
      is splitting on whitespace runs and joining the pieces with `rep`. */
  lemma {:induction false} ReplaceIsSplitJoin(s: string, from: nat, rep: string)
    requires from <= |s|
    ensures ReplaceFrom(s, from, rep) == JoinWith(SplitFrom(s, from), rep)
    decreases |s| - from
  {
    var i := NextSpace(s, from);
    ReplaceKeepsWord(s, from, rep);
    if i < |s| {
      var n := NextNonSpace(s, i);
      ReplaceIsSplitJoin(s, n, rep);
      assert ReplaceFrom(s, i, rep) == rep + ReplaceFrom(s, n, rep);
    } else {
      assert s[from..i] == s[from..];
    }
  }

  /** A blank-free string is left unchanged by whitespace replacement. */
  lemma {:induction false} ReplaceNoSpace(s: string, from: nat, rep: string)
    requires from <= |s|
    requires forall k :: from <= k < |s| ==> !IsSpace(s[k])
    ensures ReplaceFrom(s, from, rep) == s[from..]
    decreases |s| - from
  {
    if from < |s| {
      ReplaceNoSpace(s, from + 1, rep);
      assert s[from..] == [s[from]] + s[from + 1..];
    }
  }

  // ---------------------------------------------------------------------------
  // ASCII case mapping

  function UpperChar(c: char): char {
    if 'a' <= c <= 'z' then (c as int - 32) as char else c
  }

  function LowerChar(c: char): char {
    if 'A' <= c <= 'Z' then (c as int + 32) as char else c
  }

  /** `s.toUpperCase()` on ASCII letters; every other character is kept. */
  function ToUpper(s: string): (r: string)
    ensures |r| == |s|
    ensures forall k :: 0 <= k < |r| ==> !('a' <= r[k] <= 'z')
    ensures forall k :: 0 <= k < |s| ==>
      if 'a' <= s[k] <= 'z' then r[k] as int == s[k] as int - 32 else r[k] == s[k]
  {
    seq(|s|, k requires 0 <= k < |s| => UpperChar(s[k]))
  }

  /** `s.toLowerCase()` on ASCII letters; every other character is kept. */
  function ToLower(s: string): (r: string)
    ensures |r| == |s|
    ensures forall k :: 0 <= k < |r| ==> !('A' <= r[k] <= 'Z')
    ensures forall k :: 0 <= k < |s| ==>
      if 'A' <= s[k] <= 'Z' then r[k] as int == s[k] as int + 32 else r[k] == s[k]
  {
    seq(|s|, k requires 0 <= k < |s| => LowerChar(s[k]))
  }

  /** Lower-casing undoes upper-casing on a string with no upper-case
      ASCII letter. */
  lemma LowerUpper(s: string)
    requires forall k :: 0 <= k < |s| ==> !('A' <= s[k] <= 'Z')
    ensures ToLower(ToUpper(s)) == s
  {
    var u := ToUpper(s);
    forall k | 0 <= k < |s| ensures ToLower(u)[k] == s[k] {
      if 'a' <= s[k] <= 'z' {
        assert 'A' <= u[k] <= 'Z';
      } else {
        assert u[k] == s[k];
      }
    }
  }
}
