/** Character case mapping, word capitalisation, literal splitting and joining of strings,
    as the Java standard library and Apache Commons Text perform them on the schedule's text. */
module Text {

  predicate IsUpper(c: char) {
    'A' <= c <= 'Z'
  }

  predicate IsLower(c: char) {
    'a' <= c <= 'z'
  }

  /** `Character.toLowerCase`, restricted to ASCII letters; every other character is kept. */
  function ToLower(c: char): char {
    if IsUpper(c) then (c as int + 32) as char else c
  }

  /** `Character.toTitleCase`, restricted to ASCII letters; every other character is kept. */
  function ToTitle(c: char): char {
    if IsLower(c) then (c as int - 32) as char else c
  }

  /** `Character.isWhitespace`: the Unicode space, line and paragraph separators except the
      non-breaking ones, plus the ASCII controls TAB, LF, VT, FF, CR and FS, GS, RS, US. */
  predicate IsWhitespace(c: char) {
    var n := c as int;
    || 9 <= n <= 13
    || 28 <= n <= 32
    || n == 0x1680
    || 0x2000 <= n <= 0x2006
    || 0x2008 <= n <= 0x200A
    || n == 0x2028
    || n == 0x2029
    || n == 0x205F
    || n == 0x3000
  }

  /** `String.toLowerCase`, character by character. */
  function Lower(s: string): (r: string)
    ensures |r| == |s|
    ensures forall i :: 0 <= i < |s| ==> r[i] == ToLower(s[i])
  {
    seq(|s|, i requires 0 <= i < |s| => ToLower(s[i]))
  }

  // ---------------------------------------------------------------------------------------------
  // Word capitalisation
  // ---------------------------------------------------------------------------------------------

  /** `WordUtils.capitalize` scanning `s`; `capitalizeNext` says whether the character
      before `s` ended a word (or `s` starts the text). */
  function CapitalizeFrom(s: string, capitalizeNext: bool): (r: string)
    ensures |r| == |s|
  {
    if |s| == 0 then ""
    else if IsWhitespace(s[0]) then [s[0]] + CapitalizeFrom(s[1..], true)
    else if capitalizeNext then [ToTitle(s[0])] + CapitalizeFrom(s[1..], false)
    else [s[0]] + CapitalizeFrom(s[1..], false)
  }

  /** `WordUtils.capitalize(s)` with the default delimiters (whitespace). */
  function Capitalize(s: string): string {
    CapitalizeFrom(s, true)
  }

  /** Position `i` holds the first character of a whitespace-delimited word. */
  predicate StartsWord(s: string, i: int)
    requires 0 <= i < |s|
  {
    !IsWhitespace(s[i]) && (i == 0 || IsWhitespace(s[i - 1]))
  }

  lemma {:induction false} CapitalizeFromAt(s: string, capitalizeNext: bool, i: int)
    requires 0 <= i < |s|
    ensures CapitalizeFrom(s, capitalizeNext)[i]
         == if !IsWhitespace(s[i]) && (if i == 0 then capitalizeNext else IsWhitespace(s[i - 1]))
            then ToTitle(s[i]) else s[i]
  {
    if i > 0 {
      CapitalizeFromAt(s[1..], IsWhitespace(s[0]), i - 1);
      assert s[1..][i - 1] == s[i];
      if i > 1 {
        assert s[1..][i - 2] == s[i - 1];
      }
    }
  }

  /** Capitalisation keeps the length, title-cases exactly the characters that start a word
      and keeps every other character. */
  lemma CapitalizeSpec(s: string)
    ensures |Capitalize(s)| == |s|
    ensures forall i :: 0 <= i < |s| ==>
              Capitalize(s)[i] == if StartsWord(s, i) then ToTitle(s[i]) else s[i]
  {
    forall i | 0 <= i < |s|
      ensures Capitalize(s)[i] == if StartsWord(s, i) then ToTitle(s[i]) else s[i]
    {
      CapitalizeFromAt(s, true, i);
    }
  }

  /** A single word is capitalised by title-casing its first character only. */
  lemma CapitalizeWord(s: string)
    requires |s| > 0 && forall i :: 0 <= i < |s| ==> !IsWhitespace(s[i])
    ensures Capitalize(s) == [ToTitle(s[0])] + s[1..]
  {
    CapitalizeSpec(s);
    var r := [ToTitle(s[0])] + s[1..];
    forall i | 0 <= i < |s|
      ensures Capitalize(s)[i] == r[i]
    {
      if i > 0 {
        assert !StartsWord(s, i);
      }
    }
  }

  // ---------------------------------------------------------------------------------------------
  // Splitting on a literal separator
  // ---------------------------------------------------------------------------------------------

  predicate StartsWith(s: string, prefix: string) {
    |prefix| <= |s| && s[..|prefix|] == prefix
  }

  /** `sep` occurs in `s` at position `i`. */
  predicate OccursAt(s: string, sep: string, i: nat) {
    i + |sep| <= |s| && s[i..i + |sep|] == sep
  }

  ghost predicate Occurs(s: string, sep: string) {
    exists i: nat :: OccursAt(s, sep, i)
  }

  /** The pieces of `s` around the leftmost non-overlapping occurrences of `sep`, empty pieces
      included: k occurrences give k + 1 pieces. */
  function SplitAll(s: string, sep: string): (r: seq<string>)
    requires |sep| > 0
    ensures |r| >= 1
    decreases |s|
  {
    if |s| < |sep| then [s]
    else if StartsWith(s, sep) then [""] + SplitAll(s[|sep|..], sep)
    else
      var rest := SplitAll(s[1..], sep);
      [[s[0]] + rest[0]] + rest[1..]
  }

  /** Removes the empty pieces at the end, as `Pattern.split` with limit 0 does. */
  function DropTrailingEmpty(parts: seq<string>): (r: seq<string>)
    ensures |r| <= |parts| && r == parts[..|r|]
    ensures forall k :: |r| <= k < |parts| ==> parts[k] == ""
    ensures |r| > 0 ==> r[|r| - 1] != ""
  {
    if |parts| > 0 && parts[|parts| - 1] == "" then DropTrailingEmpty(parts[..|parts| - 1])
    else parts
  }

  /** `String.split(sep)` for a separator without regular-expression metacharacters: when `sep`
      does not occur the result is `[s]` (even for the empty string); otherwise the trailing
      empty pieces are dropped. */
  function Split(s: string, sep: string): seq<string>
    requires |sep| > 0
  {
    var parts := SplitAll(s, sep);
    if |parts| == 1 then parts else DropTrailingEmpty(parts)
  }

  /** `Joiner.on(sep).join(parts)` (and `String.join`): the parts with `sep` between neighbours. */
  function Join(parts: seq<string>, sep: string): string {
    if |parts| == 0 then ""
    else if |parts| == 1 then parts[0]
    else parts[0] + sep + Join(parts[1..], sep)
  }

  lemma SliceAfter(a: string, b: string, x: nat, y: nat)
    requires x <= y <= |b|
    ensures (a + b)[|a| + x..|a| + y] == b[x..y]
  {
  }

  /** Where part `k` starts in `Join(parts, sep)`: after each earlier part and its separator. */
  function PartOffset(parts: seq<string>, sep: string, k: nat): nat
    requires k <= |parts|
  {
    if k == 0 then 0 else |parts[0]| + |sep| + PartOffset(parts[1..], sep, k - 1)
  }

  /** The joined text of several parts starts with the first part and the separator. */
  lemma JoinPlacesFirst(parts: seq<string>, sep: string)
    requires |parts| > 1
    ensures var j := Join(parts, sep);
            && |parts[0]| + |sep| <= |j|
            && j[..|parts[0]|] == parts[0]
            && j[|parts[0]|..|parts[0]| + |sep|] == sep
  {
    var j := Join(parts, sep);
    assert j == (parts[0] + sep) + Join(parts[1..], sep);
    assert j[..|parts[0]|] == parts[0];
  }

  /** The joined text holds part `k` at its offset, followed by the separator unless it is the
      last part, which ends the text. */
  lemma {:induction false} JoinPlacesParts(parts: seq<string>, sep: string, k: nat)
    requires k < |parts|
    ensures var j, o := Join(parts, sep), PartOffset(parts, sep, k);
            && o + |parts[k]| <= |j|
            && j[o..o + |parts[k]|] == parts[k]
            && (k + 1 < |parts| ==> o + |parts[k]| + |sep| <= |j| && j[o + |parts[k]|..o + |parts[k]| + |sep|] == sep)
            && (k + 1 == |parts| ==> |j| == o + |parts[k]|)
  {
    var j := Join(parts, sep);
    if |parts| > 1 {
      var rest := Join(parts[1..], sep);
      assert j == (parts[0] + sep) + rest;
      if k == 0 {
        JoinPlacesFirst(parts, sep);
      } else {
        JoinPlacesParts(parts[1..], sep, k - 1);
        var o' := PartOffset(parts[1..], sep, k - 1);
        assert parts[1..][k - 1] == parts[k];
        SliceAfter(parts[0] + sep, rest, o', o' + |parts[k]|);
        if k + 1 < |parts| {
          SliceAfter(parts[0] + sep, rest, o' + |parts[k]|, o' + |parts[k]| + |sep|);
        }
      }
    }
  }

  /** Prepending text to the first part prepends it to the joined text. */
  lemma JoinPrependFirst(a: string, parts: seq<string>, sep: string)
    requires |parts| >= 1
    ensures Join([a + parts[0]] + parts[1..], sep) == a + Join(parts, sep)
  {
    var parts' := [a + parts[0]] + parts[1..];
    if |parts| > 1 {
      assert parts'[1..] == parts[1..];
    }
  }

  /** Joining the pieces back with the separator gives the original text. */
  lemma {:induction false} JoinSplitAll(s: string, sep: string)
    requires |sep| > 0
    ensures Join(SplitAll(s, sep), sep) == s
    decreases |s|
  {
    if |s| < |sep| {
    } else if StartsWith(s, sep) {
      var rest := SplitAll(s[|sep|..], sep);
      JoinSplitAll(s[|sep|..], sep);
      assert SplitAll(s, sep) == [""] + rest;
      assert ([""] + rest)[1..] == rest;
      assert Join([""] + rest, sep) == "" + sep + Join(rest, sep);
      assert s == sep + s[|sep|..];
    } else {
      var rest := SplitAll(s[1..], sep);
      JoinSplitAll(s[1..], sep);
      assert SplitAll(s, sep) == [[s[0]] + rest[0]] + rest[1..];
      JoinPrependFirst([s[0]], rest, sep);
      assert s == [s[0]] + s[1..];
    }
  }

  /** The first piece is a prefix of the text. */
  lemma FirstPieceIsPrefix(s: string, sep: string)
    requires |sep| > 0
    ensures StartsWith(s, SplitAll(s, sep)[0])
  {
    var parts := SplitAll(s, sep);
    JoinSplitAll(s, sep);
    if |parts| > 1 {
      assert Join(parts, sep) == parts[0] + (sep + Join(parts[1..], sep));
    }
  }

  /** No piece contains the separator. */
  lemma {:induction false} SplitAllPiecesAvoidSeparator(s: string, sep: string)
    requires |sep| > 0
    ensures forall k :: 0 <= k < |SplitAll(s, sep)| ==> !Occurs(SplitAll(s, sep)[k], sep)
    decreases |s|
  {
    if |s| < |sep| {
      assert forall i: nat :: !OccursAt(s, sep, i);
    } else if StartsWith(s, sep) {
      SplitAllPiecesAvoidSeparator(s[|sep|..], sep);
      assert !Occurs("", sep) by {
        assert forall i: nat :: !OccursAt("", sep, i);
      }
    } else {
      var rest := SplitAll(s[1..], sep);
      SplitAllPiecesAvoidSeparator(s[1..], sep);
      FirstPieceIsPrefix(s[1..], sep);
      var head := [s[0]] + rest[0];
      assert StartsWith(s, head);
      forall i: nat
        ensures !OccursAt(head, sep, i)
      {
        if i > 0 && OccursAt(head, sep, i) {
          assert head[i..i + |sep|] == rest[0][i - 1..i - 1 + |sep|];
          assert OccursAt(rest[0], sep, i - 1);
        }
      }
      assert SplitAll(s, sep) == [head] + rest[1..];
    }
  }

  /** There is a single piece exactly when the separator does not occur. */
  lemma SplitAllSingleIffAbsent(s: string, sep: string)
    requires |sep| > 0
    ensures |SplitAll(s, sep)| == 1 <==> !Occurs(s, sep)
  {
    var parts := SplitAll(s, sep);
    JoinSplitAll(s, sep);
    SplitAllPiecesAvoidSeparator(s, sep);
    if |parts| == 1 {
      assert parts[0] == s;
    } else {
      assert s == parts[0] + sep + Join(parts[1..], sep);
      assert OccursAt(s, sep, |parts[0]|);
    }
  }

  /** A text none of whose characters can start the separator is glued to the front of the
      first piece. */
  lemma {:induction false} SplitAllPrefix(a: string, s: string, sep: string)
    requires |sep| > 0
    requires forall i :: 0 <= i < |a| ==> a[i] != sep[0]
    ensures SplitAll(a + s, sep) == [a + SplitAll(s, sep)[0]] + SplitAll(s, sep)[1..]
    decreases |a|
  {
    if |a| > 0 {
      var t := a[1..] + s;
      assert a + s == [a[0]] + t;
      assert (a + s)[1..] == t;
      SplitAllPrefix(a[1..], s, sep);
      if |a + s| >= |sep| {
        assert (a + s)[0] != sep[0];
        assert !StartsWith(a + s, sep);
      }
      assert [a[0]] + (a[1..] + SplitAll(s, sep)[0]) == a + SplitAll(s, sep)[0];
    } else {
      var parts := SplitAll(s, sep);
      assert a + s == s && a + parts[0] == parts[0];
      assert parts == [parts[0]] + parts[1..];
    }
  }

  /** A separator at the front opens an empty piece. */
  lemma SplitAllAfterSeparator(s: string, sep: string)
    requires |sep| > 0
    ensures SplitAll(sep + s, sep) == [""] + SplitAll(s, sep)
  {
    assert StartsWith(sep + s, sep);
    assert (sep + s)[|sep|..] == s;
  }

  /** Two pieces without the separator's first character, joined by the separator, split back
      into those two pieces. */
  lemma SplitPair(a: string, b: string, sep: string)
    requires |sep| > 0 && |b| > 0
    requires forall i :: 0 <= i < |a| ==> a[i] != sep[0]
    requires forall i :: 0 <= i < |b| ==> b[i] != sep[0]
    ensures Split(a + sep + b, sep) == [a, b]
  {
    SplitAllPrefix(b, "", sep);
    assert b + "" == b;
    assert SplitAll(b, sep) == [b];
    SplitAllAfterSeparator(b, sep);
    SplitAllPrefix(a, sep + b, sep);
    assert a + sep + b == a + (sep + b);
    assert SplitAll(a + sep + b, sep) == [a + "", b];
    assert a + "" == a;
  }

  /** `Split` is the sequence of pieces between occurrences of the separator, in order: the text
      itself when the separator is absent, otherwise every piece up to the last non-empty one. */
  lemma SplitSpec(s: string, sep: string)
    requires |sep| > 0
    ensures !Occurs(s, sep) ==> Split(s, sep) == [s]
    ensures Occurs(s, sep) ==>
              && Split(s, sep) == SplitAll(s, sep)[..|Split(s, sep)|]
              && (forall k :: |Split(s, sep)| <= k < |SplitAll(s, sep)| ==> SplitAll(s, sep)[k] == "")
              && (|Split(s, sep)| > 0 ==> Split(s, sep)[|Split(s, sep)| - 1] != "")
    ensures forall k :: 0 <= k < |Split(s, sep)| ==> !Occurs(Split(s, sep)[k], sep)
  {
    SplitAllSingleIffAbsent(s, sep);
    SplitAllPiecesAvoidSeparator(s, sep);
    JoinSplitAll(s, sep);
    var parts := SplitAll(s, sep);
    if |parts| == 1 {
      assert parts[0] == s;
    } else {
      var r := Split(s, sep);
      assert forall k :: 0 <= k < |r| ==> r[k] == parts[k];
    }
  }
  lemma {:induction false} JoinSnoc(parts: seq<string>, last: string, sep: string)
    requires |parts| >= 1
    ensures Join(parts + [last], sep) == Join(parts, sep) + sep + last
    decreases |parts|
  {
    if |parts| > 1 {
      assert (parts + [last])[1..] == parts[1..] + [last];
      JoinSnoc(parts[1..], last, sep);
    }
  }

  /** Splitting and joining back restore the text, unless the text ends with the separator's
      last character (where trailing empty pieces may have been dropped). */
  lemma JoinSplit(s: string, sep: string)
    requires |sep| > 0
    requires |s| == 0 || s[|s| - 1] != sep[|sep| - 1]
    ensures Join(Split(s, sep), sep) == s
  {
    var parts := SplitAll(s, sep);
    JoinSplitAll(s, sep);
    if |parts| > 1 {
      var n := |parts| - 1;
      assert parts == parts[..n] + [parts[n]];
      JoinSnoc(parts[..n], parts[n], sep);
      assert parts[n] != "";
      assert DropTrailingEmpty(parts) == parts;
    }
  }

  lemma LowerConcat(a: string, b: string)
    ensures Lower(a + b) == Lower(a) + Lower(b)
  {
  }

  /** Lower-casing distributes over joining. */
  lemma {:induction false} LowerJoin(parts: seq<string>, sep: string)
    ensures Lower(Join(parts, sep)) == Join(seq(|parts|, k requires 0 <= k < |parts| => Lower(parts[k])), Lower(sep))
    decreases |parts|
  {
    var lowered := seq(|parts|, k requires 0 <= k < |parts| => Lower(parts[k]));
    if |parts| > 1 {
      LowerJoin(parts[1..], sep);
      assert lowered[1..] == seq(|parts[1..]|, k requires 0 <= k < |parts[1..]| => Lower(parts[1..][k]));
      LowerConcat(parts[0] + sep, Join(parts[1..], sep));
      LowerConcat(parts[0], sep);
    }
  }

  // ---------------------------------------------------------------------------------------------
  // Ordering
  // ---------------------------------------------------------------------------------------------

  /** `String.compareTo`: the difference of the first differing characters, or of the lengths
      when one string is a prefix of the other. */
  function CompareTo(a: string, b: string): int {
    if |a| == 0 || |b| == 0 then |a| - |b|
    else if a[0] != b[0] then a[0] as int - b[0] as int
    else CompareTo(a[1..], b[1..])
  }

  /** `a` equals `b` or comes before it in dictionary order. */
  predicate LexLe(a: string, b: string) {
    |a| == 0 || (|b| > 0 && (a[0] < b[0] || (a[0] == b[0] && LexLe(a[1..], b[1..]))))
  }

  /** The sign of the comparison is dictionary order. */
  lemma {:induction false} CompareToIsLexicographic(a: string, b: string)
    ensures CompareTo(a, b) <= 0 <==> LexLe(a, b)
    ensures CompareTo(a, b) == 0 <==> a == b
    ensures CompareTo(a, b) < 0 <==> CompareTo(b, a) > 0
  {
    if |a| == 0 || |b| == 0 {
    } else if a[0] != b[0] {
    } else {
      CompareToIsLexicographic(a[1..], b[1..]);
      assert a == [a[0]] + a[1..];
      assert b == [b[0]] + b[1..];
    }
  }

  lemma {:induction false} LexLeTotal(a: string, b: string)
    ensures LexLe(a, b) || LexLe(b, a)
  {
    if |a| > 0 && |b| > 0 && a[0] == b[0] {
      LexLeTotal(a[1..], b[1..]);
    }
  }

  lemma {:induction false} LexLeTransitive(a: string, b: string, c: string)
    requires LexLe(a, b) && LexLe(b, c)
    ensures LexLe(a, c)
  {
    if |a| > 0 && a[0] == b[0] && b[0] == c[0] {
      LexLeTransitive(a[1..], b[1..], c[1..]);
    }
  }
}
