/** The initials avatar shown in the first column of the students table
    (`TheAvatar` in the frontend), with the two JavaScript string operations
    it relies on: `String.prototype.trim` and `String.prototype.split` on a
    one-character separator. */
module Avatar {

  /** ECMAScript WhiteSpace and LineTerminator code points, the characters
      `trim` removes from both ends. */
  const JsWhiteSpace: set<char> := {
    '\U{0009}', '\U{000A}', '\U{000B}', '\U{000C}', '\U{000D}', '\U{0020}', '\U{00A0}',
    '\U{1680}', '\U{2000}', '\U{2001}', '\U{2002}', '\U{2003}', '\U{2004}', '\U{2005}',
    '\U{2006}', '\U{2007}', '\U{2008}', '\U{2009}', '\U{200A}', '\U{2028}', '\U{2029}',
    '\U{202F}', '\U{205F}', '\U{3000}', '\U{FEFF}'
  }

  predicate IsJsWhiteSpace(c: char) {
    c in JsWhiteSpace
  }

  predicate IsBlank(s: string) {
    forall i :: 0 <= i < |s| ==> IsJsWhiteSpace(s[i])
  }

  /** The first index at or after `i` that is not whitespace, or `|s|`. */
  function TrimStartIndex(s: string, i: nat): (k: nat)
    requires i <= |s|
    ensures i <= k <= |s|
    ensures forall j :: i <= j < k ==> IsJsWhiteSpace(s[j])
    ensures k < |s| ==> !IsJsWhiteSpace(s[k])
    decreases |s| - i
  {
    if i < |s| && IsJsWhiteSpace(s[i]) then TrimStartIndex(s, i + 1) else i
  }

  /** The end of `s[lo..j]` once its whitespace suffix is dropped. */
  function TrimEndIndex(s: string, lo: nat, j: nat): (k: nat)
    requires lo <= j <= |s|
    ensures lo <= k <= j
    ensures forall m :: k <= m < j ==> IsJsWhiteSpace(s[m])
    ensures k > lo ==> !IsJsWhiteSpace(s[k - 1])
    decreases j
  {
    if j > lo && IsJsWhiteSpace(s[j - 1]) then TrimEndIndex(s, lo, j - 1) else j
  }

  /** `s.trim()`: the slice of `s` left once a whitespace prefix and a
      whitespace suffix are removed; empty exactly for blank strings, and
      otherwise it starts and ends with a character that is not whitespace. */
  function Trim(s: string): (r: string)
    ensures exists a, b :: 0 <= a <= b <= |s| && r == s[a..b] && IsBlank(s[..a]) && IsBlank(s[b..])
    ensures r == [] <==> IsBlank(s)
    ensures r != [] ==> !IsJsWhiteSpace(r[0]) && !IsJsWhiteSpace(r[|r| - 1])
  {
    var a := TrimStartIndex(s, 0);
    var b := TrimEndIndex(s, a, |s|);
    assert a < |s| ==> a < b;
    assert IsBlank(s[..a]);
    assert IsBlank(s[b..]);
    s[a..b]
  }

  /** A string that neither starts nor ends with whitespace is its own trim. */
  lemma TrimUnpadded(s: string)
    requires s != [] && !IsJsWhiteSpace(s[0]) && !IsJsWhiteSpace(s[|s| - 1])
    ensures Trim(s) == s
  {
    assert TrimStartIndex(s, 0) == 0;
    assert TrimEndIndex(s, 0, |s|) == |s|;
  }

  /** Trimming a trimmed string changes nothing. */
  lemma TrimIdempotent(s: string)
    ensures Trim(Trim(s)) == Trim(s)
  {
    var t := Trim(s);
    if t != [] {
      TrimUnpadded(t);
    }
  }

  function Count(s: string, c: char): (n: nat)
    ensures n <= |s|
    ensures n == 0 <==> c !in s
    decreases |s|
  {
    if s == [] then 0 else (if s[0] == c then 1 else 0) + Count(s[1..], c)
  }

  /** `s.split(sep)` for a one-character separator: the maximal runs between
      separators, so one more part than there are separators. */
  function Split(s: string, sep: char): (parts: seq<string>)
    ensures |parts| == Count(s, sep) + 1
    decreases |s|
  {
    if s == [] then [[]]
    else
      var rest := Split(s[1..], sep);
      if s[0] == sep then [[]] + rest else [[s[0]] + rest[0]] + rest[1..]
  }

  /** `parts.join(sep)`, the inverse of Split. */
  function Join(parts: seq<string>, sep: char): string
    decreases |parts|
  {
    if parts == [] then []
    else if |parts| == 1 then parts[0]
    else parts[0] + [sep] + Join(parts[1..], sep)
  }

  lemma {:induction false} JoinSplit(s: string, sep: char)
    ensures Join(Split(s, sep), sep) == s
    decreases |s|
  {
    if s != [] {
      var rest := Split(s[1..], sep);
      JoinSplit(s[1..], sep);
      if s[0] == sep {
        assert Split(s, sep) == [[]] + rest;
        assert ([[]] + rest)[1..] == rest;
      } else {
        var parts := [[s[0]] + rest[0]] + rest[1..];
        assert Split(s, sep) == parts;
        if |rest| > 1 {
          assert parts[1..] == rest[1..];
          assert Join(rest, sep) == rest[0] + [sep] + Join(rest[1..], sep);
        }
      }
    }
  }

  /** The generic person icon (no text), or a text label. */
  datatype AvatarSpec = GenericIcon | Letters(text: string)

  /** `TheAvatar({name})` as written: the blank test and the split use the
      trimmed name, the letters are read from the untrimmed one. */
  function TheAvatar(name: string): (a: AvatarSpec)
    ensures a.Letters? ==> 1 <= |a.text| <= 2
  {
    var trim := Trim(name);
    if |trim| == 0 then GenericIcon
    else
      var split := Split(trim, ' ');
      if |split| == 1 then Letters([name[0]])
      else Letters([name[0], name[|name| - 1]])
  }

  lemma AvatarGenericIffBlank(name: string)
    ensures TheAvatar(name) == GenericIcon <==> IsBlank(name)
  {
  }

  lemma AvatarOneLetter(name: string)
    requires !IsBlank(name) && ' ' !in Trim(name)
    ensures TheAvatar(name) == Letters([name[0]])
  {
  }

  lemma AvatarTwoLetters(name: string)
    requires ' ' in Trim(name)
    ensures |name| >= 1 && TheAvatar(name) == Letters([name[0], name[|name| - 1]])
  {
  }

  /** Blank names get the generic icon. */
  lemma AvatarBlankExamples()
    ensures TheAvatar("") == GenericIcon
    ensures TheAvatar("   ") == GenericIcon
  {
    assert TheAvatar("   ") == GenericIcon by { AvatarGenericIffBlank("   "); }
  }

  /** A single token gives its first letter. */
  lemma AvatarOneLetterExample()
    ensures TheAvatar("Bill") == Letters("B")
  {
    assert Trim("Bill") == "Bill" by { TrimUnpadded("Bill"); }
    assert |Split("Bill", ' ')| == 1 by { assert ' ' !in "Bill"; }
  }

  /** For a name without surrounding whitespace that contains a space. */
  lemma AvatarTwoLettersUnpadded(name: string)
    requires name != [] && !IsJsWhiteSpace(name[0]) && !IsJsWhiteSpace(name[|name| - 1])
    requires ' ' in name
    ensures TheAvatar(name) == Letters([name[0], name[|name| - 1]])
  {
    TrimUnpadded(name);
    AvatarTwoLetters(name);
  }

  /** Several tokens give the first letter of the first and the last letter
      of the last. */
  lemma AvatarTwoLettersExample()
    ensures TheAvatar("Tom Riddle") == Letters("Te")
  {
    assert ' ' in "Tom Riddle" by { assert "Tom Riddle"[3] == ' '; }
    AvatarTwoLettersUnpadded("Tom Riddle");
  }

  /** The intended label: both letters read from the trimmed name, so
      padding around a name cannot become a letter. */
  function TheAvatarTrimmed(name: string): (a: AvatarSpec)
    ensures a == GenericIcon <==> IsBlank(name)
    ensures a.Letters? ==> 1 <= |a.text| <= 2
    ensures a.Letters? ==> forall i :: 0 <= i < |a.text| ==> !IsJsWhiteSpace(a.text[i])
  {
    var trim := Trim(name);
    if |trim| == 0 then GenericIcon
    else
      var split := Split(trim, ' ');
      if |split| == 1 then Letters([trim[0]])
      else Letters([trim[0], trim[|trim| - 1]])
  }

  /** The corrected label depends on the trimmed name only. */
  lemma AvatarTrimmedIgnoresPadding(name: string)
    ensures TheAvatarTrimmed(name) == TheAvatarTrimmed(Trim(name))
  {
    TrimIdempotent(name);
  }

  /** On names without surrounding whitespace the two labels coincide. */
  lemma AvatarAgreesOnTrimmedNames(name: string)
    requires Trim(name) == name
    ensures TheAvatar(name) == TheAvatarTrimmed(name)
  {
  }

  /** A leading space is not part of the trimmed name, yet it becomes the label. */
  lemma UntrimmedLetterFinding()
    ensures TheAvatar(" Bill") == Letters(" ")
    ensures TheAvatarTrimmed(" Bill") == Letters("B")
  {
    assert Trim(" Bill") == "Bill" by {
      assert " Bill"[1..] == "Bill";
      TrimUnpadded("Bill");
    }
    assert |Split("Bill", ' ')| == 1 by { assert ' ' !in "Bill"; }
  }

}
