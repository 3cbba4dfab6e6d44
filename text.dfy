/** The string operations the interpreter relies on, written out over
    `seq<char>`: JavaScript's case mapping (restricted to Latin-1), `includes`,
    `trim`, `split`, `join`, and the two regular-expression rewrites
    `removePunctuation` and `removeExtraSpaces`. */
module Text {

  /** Latin-1 capital letters that have a one-character lower-case partner. */
  predicate IsUpperLetter(c: char) {
    ('A' <= c <= 'Z') || ('\U{C0}' <= c <= '\U{DE}' && c != '\U{D7}')
  }

  /** Latin-1 small letters that have a one-character upper-case partner. */
  predicate IsLowerLetter(c: char) {
    ('a' <= c <= 'z') || ('\U{E0}' <= c <= '\U{FE}' && c != '\U{F7}')
  }

  function LowerChar(c: char): (d: char)
    ensures !IsUpperLetter(d)
  {
    if IsUpperLetter(c) then (c as int + 32) as char else c
  }

  function UpperChar(c: char): (d: char)
    ensures !IsLowerLetter(d)
  {
    if IsLowerLetter(c) then (c as int - 32) as char else c
  }

  /** `String.prototype.toLowerCase`. */
  function Lower(s: string): (r: string)
    ensures |r| == |s|
  {
    seq(|s|, i requires 0 <= i < |s| => LowerChar(s[i]))
  }

  /** `String.prototype.toUpperCase`. */
  function Upper(s: string): (r: string)
    ensures |r| == |s|
  {
    seq(|s|, i requires 0 <= i < |s| => UpperChar(s[i]))
  }

  /** Lower-casing twice is lower-casing once. */
  lemma LowerIdempotent(s: string)
    ensures Lower(Lower(s)) == Lower(s)
  {
  }

  /** A word that is its own upper case comes back from `Lower` by `Upper`. */
  lemma UpperLowerOfCapitals(w: string)
    requires Upper(w) == w
    ensures Upper(Lower(w)) == w
  {
    forall i | 0 <= i < |w| ensures UpperChar(LowerChar(w[i])) == w[i] {
      assert Upper(w)[i] == w[i];
    }
  }

  /** The characters JavaScript's `\s` and `trim` treat as white space. */
  predicate IsSpace(c: char) {
    c == ' ' || c == '\t' || c == '\n' || c == '\r' || c == '\U{0B}' || c == '\U{0C}'
    || c == '\U{A0}' || c == '\U{1680}' || ('\U{2000}' <= c <= '\U{200A}')
    || c == '\U{2028}' || c == '\U{2029}' || c == '\U{202F}' || c == '\U{205F}'
    || c == '\U{3000}' || c == '\U{FEFF}'
  }

  /** Drops the leading white space. */
  function TrimStart(s: string): (r: string)
    ensures |r| <= |s| && r == s[|s| - |r|..]
    ensures r == [] || !IsSpace(r[0])
    ensures forall k :: 0 <= k < |s| - |r| ==> IsSpace(s[k])
    ensures s != [] && IsSpace(s[0]) ==> |r| < |s|
  {
    if s != [] && IsSpace(s[0]) then TrimStart(s[1..]) else s
  }

  /** Drops the trailing white space. */
  function TrimEnd(s: string): (r: string)
    ensures |r| <= |s| && r == s[..|r|]
    ensures r == [] || !IsSpace(r[|r| - 1])
    ensures forall k :: |r| <= k < |s| ==> IsSpace(s[k])
  {
    if s != [] && IsSpace(s[|s| - 1]) then TrimEnd(s[..|s| - 1]) else s
  }

  /** `String.prototype.trim`. */
  function Trim(s: string): (r: string)
    ensures r == [] || (!IsSpace(r[0]) && !IsSpace(r[|r| - 1]))
  {
    TrimEnd(TrimStart(s))
  }

  predicate StartsWith(s: string, p: string) {
    |p| <= |s| && s[..|p|] == p
  }

  predicate EndsWith(s: string, p: string) {
    |p| <= |s| && s[|s| - |p|..] == p
  }

  /** `t` occurs in `s` starting at index `i`. */
  predicate OccursAt(s: string, t: string, i: int) {
    0 <= i && i + |t| <= |s| && s[i..i + |t|] == t
  }

  /** `String.prototype.includes`. */
  predicate Contains(s: string, t: string)
    decreases |s|
  {
    StartsWith(s, t) || (s != [] && Contains(s[1..], t))
  }

  /** `includes` holds exactly when the string occurs at some index. */
  lemma {:induction false} ContainsIffOccurs(s: string, t: string)
    ensures Contains(s, t) <==> exists i :: OccursAt(s, t, i)
    decreases |s|
  {
    if StartsWith(s, t) {
      assert OccursAt(s, t, 0);
    } else if s == [] {
    } else {
      ContainsIffOccurs(s[1..], t);
      if Contains(s[1..], t) {
        var i :| OccursAt(s[1..], t, i);
        assert s[1..][i..i + |t|] == s[i + 1..i + 1 + |t|];
        assert OccursAt(s, t, i + 1);
      }
      forall i | OccursAt(s, t, i) ensures Contains(s[1..], t) {
        assert i != 0;
        assert s[1..][i - 1..i - 1 + |t|] == s[i..i + |t|];
        assert OccursAt(s[1..], t, i - 1);
      }
    }
  }

  /** A string misses every text whose first character it lacks. */
  lemma {:induction false} MissingFirstCharNotContained(s: string, t: string)
    requires t != [] && t[0] !in s
    ensures !Contains(s, t)
    decreases |s|
  {
    if s != [] {
      assert s[0] != t[0];
      assert t[0] !in s[1..] by {
        forall c | c in s[1..] ensures c in s { }
      }
      MissingFirstCharNotContained(s[1..], t);
    }
  }

  /** `String.prototype.split` with a one-character separator: the pieces
      between separators, empty ones included. */
  function Split(s: string, sep: char): (r: seq<string>)
    ensures |r| >= 1
  {
    if s == [] then [""]
    else if s[0] == sep then [""] + Split(s[1..], sep)
    else
      var rest := Split(s[1..], sep);
      [[s[0]] + rest[0]] + rest[1..]
  }

  /** No piece holds the separator. */
  lemma {:induction false} SplitPiecesLackSeparator(s: string, sep: char)
    ensures forall i :: 0 <= i < |Split(s, sep)| ==> sep !in Split(s, sep)[i]
  {
    if s != [] {
      SplitPiecesLackSeparator(s[1..], sep);
      if s[0] != sep {
        var rest := Split(s[1..], sep);
        assert sep !in rest[0];
        assert forall c :: c in [s[0]] + rest[0] ==> c == s[0] || c in rest[0];
      }
    }
  }

  /** Text without the separator is one piece. */
  lemma {:induction false} SplitWhole(a: string, sep: char)
    requires sep !in a
    ensures Split(a, sep) == [a]
  {
    if a != [] {
      SplitWhole(a[1..], sep);
      assert a == [a[0]] + a[1..];
    }
  }

  /** The first separator ends the first piece. */
  lemma {:induction false} SplitAtFirst(a: string, sep: char, b: string)
    requires sep !in a
    ensures Split(a + [sep] + b, sep) == [a] + Split(b, sep)
  {
    if a == [] {
      assert a + [sep] + b == [sep] + b;
    } else {
      assert (a + [sep] + b)[1..] == a[1..] + [sep] + b;
      SplitAtFirst(a[1..], sep, b);
      assert a == [a[0]] + a[1..];
    }
  }

  /** `Array.prototype.join`. */
  function Join(ws: seq<string>, sep: string): string {
    if |ws| == 0 then ""
    else if |ws| == 1 then ws[0]
    else ws[0] + sep + Join(ws[1..], sep)
  }

  /** Joining the pieces of a split with the separator gives the string back. */
  lemma {:induction false} JoinSplit(s: string, sep: char)
    ensures Join(Split(s, sep), [sep]) == s
  {
    if s == [] {
    } else if s[0] == sep {
      var rest := Split(s[1..], sep);
      JoinSplit(s[1..], sep);
      assert ([""] + rest)[1..] == rest;
    } else {
      var rest := Split(s[1..], sep);
      JoinSplit(s[1..], sep);
      var r := [[s[0]] + rest[0]] + rest[1..];
      if |rest| == 1 {
        assert Join(r, [sep]) == [s[0]] + rest[0];
      } else {
        assert r[1..] == rest[1..];
        assert Join(rest, [sep]) == rest[0] + [sep] + Join(rest[1..], [sep]);
      }
    }
  }

  /** `String.prototype.split(/\s+/)`: the pieces between maximal runs of
      white space. */
  function SplitOnSpaceRuns(s: string): (r: seq<string>)
    ensures |r| >= 1
    ensures forall i, k :: 0 <= i < |r| && 0 <= k < |r[i]| ==> !IsSpace(r[i][k])
    decreases |s|
  {
    if s == [] then [""]
    else if IsSpace(s[0]) then
      var t := TrimStart(s);
      [""] + SplitOnSpaceRuns(t)
    else
      var rest := SplitOnSpaceRuns(s[1..]);
      [[s[0]] + rest[0]] + rest[1..]
  }

  /** The characters `removePunctuation` deletes. */
  predicate IsPunctuation(c: char) {
    c == '.' || c == ',' || c == '/' || c == '#' || c == '?' || c == '!' || c == '$'
    || c == '%' || c == '^' || c == '&' || c == '*' || c == ';' || c == ':' || c == '{'
    || c == '}' || c == '=' || c == '_' || c == '`' || c == '~' || c == '(' || c == ')'
  }

  /** `removePunctuation`: every listed punctuation mark deleted, the other
      characters kept in order. */
  function RemovePunctuation(s: string): string {
    if s == [] then []
    else if IsPunctuation(s[0]) then RemovePunctuation(s[1..])
    else [s[0]] + RemovePunctuation(s[1..])
  }

  lemma {:induction false} RemovePunctuationMembers(s: string)
    ensures forall c :: c in RemovePunctuation(s) <==> c in s && !IsPunctuation(c)
    ensures |RemovePunctuation(s)| <= |s|
  {
    if s != [] {
      RemovePunctuationMembers(s[1..]);
      assert forall c :: c in s <==> c == s[0] || c in s[1..];
    }
  }

  /** Text without punctuation marks passes `removePunctuation` unchanged. */
  lemma {:induction false} RemovePunctuationOfClean(s: string)
    requires forall i :: 0 <= i < |s| ==> !IsPunctuation(s[i])
    ensures RemovePunctuation(s) == s
  {
    if s != [] {
      RemovePunctuationOfClean(s[1..]);
    }
  }

  /** `removePunctuation` works piece by piece. */
  lemma {:induction false} RemovePunctuationAppend(a: string, b: string)
    ensures RemovePunctuation(a + b) == RemovePunctuation(a) + RemovePunctuation(b)
  {
    if a != [] {
      assert (a + b)[0] == a[0] && (a + b)[1..] == a[1..] + b;
      RemovePunctuationAppend(a[1..], b);
    } else {
      assert a + b == b;
    }
  }

  /** `removeExtraSpaces`: each run of two or more white-space characters
      becomes one space; a single white-space character stays as it is. */
  function RemoveExtraSpaces(s: string): string
    decreases |s|
  {
    if s == [] then []
    else if |s| >= 2 && IsSpace(s[0]) && IsSpace(s[1]) then
      [' '] + RemoveExtraSpaces(TrimStart(s))
    else [s[0]] + RemoveExtraSpaces(s[1..])
  }

  /** The result is empty only for empty input, starts with white space
      exactly when the input does, and has no two white-space characters in
      a row. */
  lemma {:induction false} RemoveExtraSpacesCollapses(s: string)
    ensures var r := RemoveExtraSpaces(s);
      (|r| == 0 <==> |s| == 0)
      && (|r| > 0 ==> (IsSpace(r[0]) <==> IsSpace(s[0])))
      && forall i :: 0 <= i < |r| - 1 ==> !(IsSpace(r[i]) && IsSpace(r[i + 1]))
    decreases |s|
  {
    if s == [] {
    } else if |s| >= 2 && IsSpace(s[0]) && IsSpace(s[1]) {
      RemoveExtraSpacesCollapses(TrimStart(s));
    } else {
      RemoveExtraSpacesCollapses(s[1..]);
    }
  }

  /** Collapsing white space introduces no other character. */
  lemma {:induction false} RemoveExtraSpacesKeeps(s: string)
    ensures forall c :: c in RemoveExtraSpaces(s) && !IsSpace(c) ==> c in s
    decreases |s|
  {
    if s == [] {
    } else if |s| >= 2 && IsSpace(s[0]) && IsSpace(s[1]) {
      var t := TrimStart(s);
      RemoveExtraSpacesKeeps(t);
      assert forall c :: c in t ==> c in s;
    } else {
      RemoveExtraSpacesKeeps(s[1..]);
      assert forall c :: c in s[1..] ==> c in s;
    }
  }

  /** No two white-space characters in a row. */
  predicate SingleSpaced(s: string) {
    forall i :: 0 <= i < |s| - 1 ==> !(IsSpace(s[i]) && IsSpace(s[i + 1]))
  }

  /** Text without a run of white space passes `removeExtraSpaces`
      unchanged. */
  lemma {:induction false} RemoveExtraSpacesOfSingleSpaced(s: string)
    requires SingleSpaced(s)
    ensures RemoveExtraSpaces(s) == s
    decreases |s|
  {
    if s != [] {
      assert SingleSpaced(s[1..]) by {
        forall i | 0 <= i < |s[1..]| - 1 ensures !(IsSpace(s[1..][i]) && IsSpace(s[1..][i + 1])) {
          assert s[1..][i] == s[i + 1] && s[1..][i + 1] == s[i + 2];
        }
      }
      RemoveExtraSpacesOfSingleSpaced(s[1..]);
    }
  }

  /** `dir.replace(/ut$/, "")`: one trailing "ut" removed. */
  function StripTrailingUt(s: string): (r: string)
    ensures EndsWith(s, "ut") ==> r + "ut" == s
    ensures !EndsWith(s, "ut") ==> r == s
  {
    if EndsWith(s, "ut") then s[..|s| - 2] else s
  }
}
