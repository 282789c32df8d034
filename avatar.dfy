/** The initials shown in an attorney's avatar. */
module Avatar {
  import opened Text

  function Min(a: int, b: int): int {
    if a <= b then a else b
  }

  /** The name is trimmed and split on whitespace runs; one word gives its
      first two characters, several words the first character of the first
      and of the last word; the result is upper-cased. */
  function GetInitials(name: string): (r: string)
    ensures |r| <= 2
    ensures forall k :: 0 <= k < |r| ==> !('a' <= r[k] <= 'z')
    ensures r == [] <==> Trim(name) == []
  {
    var t := Trim(name);
    var parts := SplitOnSpaces(t);
    if |parts| == 1 then
      ToUpper(parts[0][..Min(2, |parts[0]|)])
    else
      FirstPieceNonEmpty(t);
      LastPieceNonEmpty(t, 0);
      ToUpper([parts[0][0], parts[|parts| - 1][0]])
  }

  /** With more than one piece, the first piece of a string that does not
      start with whitespace is not empty. */
  lemma FirstPieceNonEmpty(t: string)
    requires t != [] ==> !IsSpace(t[0])
    ensures var parts := SplitOnSpaces(t); |parts| >= 2 ==> parts[0] != []
  {
  }

  /** The last piece of a string that ends in a non-blank character is not
      empty. */
  lemma {:induction false} LastPieceNonEmpty(s: string, from: nat)
    requires from <= |s|
    requires s != [] ==> !IsSpace(s[|s| - 1])
    ensures var parts := SplitFrom(s, from); |parts| >= 2 ==> parts[|parts| - 1] != []
    decreases |s| - from
  {
    var i := NextSpace(s, from);
    if i < |s| {
      var n := NextNonSpace(s, i);
      assert n < |s|;
      LastPieceNonEmpty(s, n);
      assert SplitFrom(s, from) == [s[from..i]] + SplitFrom(s, n);
    }
  }

  /** Whitespace around the name changes nothing. */
  lemma PaddingIgnored(lead: string, name: string, trail: string)
    requires AllSpace(lead) && AllSpace(trail)
    ensures GetInitials(lead + name + trail) == GetInitials(name)
  {
    TrimIgnoresPadding(lead, name, trail);
    SameTrim(lead + name + trail, name);
  }

  /** The initials depend on the trimmed name only. */
  lemma SameTrim(a: string, b: string)
    requires Trim(a) == Trim(b)
    ensures GetInitials(a) == GetInitials(b)
  {
  }

  /** A blank name has no initials. */
  lemma BlankName(name: string)
    requires AllSpace(name)
    ensures GetInitials(name) == []
  {
    TrimUnique(name, [], []);
    assert name + [] + [] == name;
  }

  /** A single word gives its first two characters, or all of it when it is
      shorter, upper-cased. */
  lemma SingleWord(w: string)
    requires NoSpace(w)
    ensures GetInitials(w) == ToUpper(w[..Min(2, |w|)])
  {
    TrimUnique([], w, []);
    assert [] + w + [] == w;
    OneWord(w);
  }

  /** Several words give the first character of the trimmed name and the
      first character of its last word, upper-cased; the words between do
      not matter. The last word starts at `j`. */
  lemma SeveralWords(name: string, j: nat)
    requires var t := Trim(name);
      && 0 < j < |t| && IsSpace(t[j - 1])
      && forall k :: j <= k < |t| ==> !IsSpace(t[k])
    ensures var t := Trim(name); GetInitials(name) == ToUpper([t[0], t[j]])
  {
    var t := Trim(name);
    LastPiece(t, 0, j);
    var parts := SplitOnSpaces(t);
    assert parts[|parts| - 1][0] == t[j];
    assert parts[0][0] == t[0];
  }

  /** A first and a last name, one space apart, give their first letters,
      upper-cased. */
  lemma TwoWords(first: string, last: string)
    requires first != [] && last != [] && NoSpace(first) && NoSpace(last)
    ensures GetInitials(first + " " + last) == ToUpper([first[0], last[0]])
  {
    SpacedPair(first, last);
    SeveralWords(first + " " + last, |first| + 1);
  }

  /** Two words one space apart are already trimmed, and the second word
      starts after the space. */
  lemma SpacedPair(first: string, last: string)
    requires first != [] && last != [] && NoSpace(first) && NoSpace(last)
    ensures var t := first + " " + last; var j := |first| + 1;
      && Trim(t) == t && 0 < j < |t| && IsSpace(t[j - 1])
      && (forall k :: j <= k < |t| ==> !IsSpace(t[k]))
      && t[0] == first[0] && t[j] == last[0]
  {
    var t := first + " " + last;
    SpacedTrimmed(first, last, t);
    SecondWord(first + " ", last, t);
  }

  lemma SpacedTrimmed(first: string, last: string, t: string)
    requires first != [] && last != [] && NoSpace(first) && NoSpace(last)
    requires t == first + " " + last
    ensures Trim(t) == t
  {
    assert t[0] == first[0] && t[|t| - 1] == last[|last| - 1];
    TrimUnique([], t, []);
    assert [] + t + [] == t;
  }

  /** The word after a prefix ending in a space. */
  lemma SecondWord(head: string, last: string, t: string)
    requires head != [] && IsSpace(head[|head| - 1]) && last != [] && NoSpace(last)
    requires t == head + last
    ensures IsSpace(t[|head| - 1]) && t[0] == head[0] && t[|head|] == last[0]
    ensures forall k :: |head| <= k < |t| ==> !IsSpace(t[k])
  {
    forall k | |head| <= k < |t| ensures !IsSpace(t[k]) {
      assert t[k] == last[k - |head|];
    }
  }

  /** The avatar of the firm's first attorney. */
  lemma VanessaDelgado()
    ensures GetInitials("Vanessa Delgado") == "VD"
  {
    GraphicWord("Vanessa");
    GraphicWord("Delgado");
    TwoWords("Vanessa", "Delgado");
    VanessaParts();
  }

  lemma VanessaParts()
    ensures "Vanessa" + " " + "Delgado" == "Vanessa Delgado"
    ensures ToUpper(['V', 'D']) == "VD"
  {
  }
}
