/** `addStyleTags`: every occurrence of a marker is replaced, left to right,
    by an opening and a closing HTML tag in turn. */
module Markup {
  import opened Wrappers
  import opened Text

  /** `String.prototype.indexOf`: the first index at which `t` occurs. */
  function IndexOf(s: string, t: string): (r: Option<nat>)
    ensures r.Some? ==> OccursAt(s, t, r.value)
    ensures r.Some? ==> forall j :: 0 <= j < r.value ==> !OccursAt(s, t, j)
    ensures r.None? ==> forall j :: !OccursAt(s, t, j)
    decreases |s|
  {
    if StartsWith(s, t) then
      assert s[0..|t|] == s[..|t|];
      Some(0)
    else if s == [] then None
    else
      ShiftOccurs(s, t);
      assert !OccursAt(s, t, 0) by { if |t| <= |s| { assert s[0..|t|] == s[..|t|]; } }
      match IndexOf(s[1..], t)
      case Some(k) => Some(k + 1)
      case None => None
  }

  lemma ShiftOccurs(s: string, t: string)
    requires s != []
    ensures forall j :: 1 <= j ==> (OccursAt(s, t, j) <==> OccursAt(s[1..], t, j - 1))
  {
    forall j | 1 <= j
      ensures OccursAt(s, t, j) <==> OccursAt(s[1..], t, j - 1)
    {
      if j + |t| <= |s| {
        assert s[1..][j - 1..j - 1 + |t|] == s[j..j + |t|];
      }
    }
  }

  /** `includes` and `indexOf` agree. */
  lemma ContainsIffIndexOf(s: string, t: string)
    ensures Contains(s, t) <==> IndexOf(s, t).Some?
  {
    ContainsIffOccurs(s, t);
    if IndexOf(s, t).Some? {
      assert OccursAt(s, t, IndexOf(s, t).value);
    }
  }

  /** The tag that replaces the next marker. */
  function Tag(odd: bool, tagName: string): string {
    if odd then "<" + tagName + ">" else "</" + tagName + ">"
  }

  /** `str.replace(char, tag)` with a string pattern: the first occurrence. */
  function ReplaceFirst(s: string, t: string, u: string): (r: string)
    ensures IndexOf(s, t).Some? ==>
      var i := IndexOf(s, t).value; r == s[..i] + u + s[i + |t|..]
    ensures IndexOf(s, t).None? ==> r == s
  {
    match IndexOf(s, t)
    case Some(i) => s[..i] + u + s[i + |t|..]
    case None => s
  }

  /** A marker that no tag can re-create, so that the loop ends: not empty,
      without angle brackets, and not part of "/" followed by the tag name. */
  predicate TagSafe(ch: string, tagName: string) {
    ch != [] && '<' !in ch && '>' !in ch && !Contains("/" + tagName, ch)
  }

  /** A tag is its name, or "/" and its name, between angle brackets. */
  lemma TagShape(odd: bool, tagName: string)
    ensures var u := Tag(odd, tagName);
      |u| >= 2 && u[0] == '<' && u[|u| - 1] == '>'
      && u[1..|u| - 1] == (if odd then tagName else "/" + tagName)
  {
  }

  /** A safe marker occurs neither in the tag name nor after the slash. */
  lemma NotInTagName(ch: string, tagName: string)
    requires TagSafe(ch, tagName)
    ensures forall k :: !OccursAt("/" + tagName, ch, k)
    ensures forall k :: !OccursAt(tagName, ch, k)
  {
    var inner := "/" + tagName;
    ContainsIffOccurs(inner, ch);
    forall k | OccursAt(tagName, ch, k) ensures OccursAt(inner, ch, k + 1) {
      assert inner[k + 1..k + 1 + |ch|] == tagName[k..k + |ch|];
    }
  }

  /** A safe marker does not occur inside either tag. */
  lemma NotInsideTag(ch: string, tagName: string, odd: bool, o: int)
    requires TagSafe(ch, tagName)
    ensures !OccursAt(Tag(odd, tagName), ch, o)
  {
    var u := Tag(odd, tagName);
    TagShape(odd, tagName);
    NotInTagName(ch, tagName);
    if 0 <= o && o + |ch| <= |u| {
      var w := u[o..o + |ch|];
      if o == 0 {
        assert w[0] == '<';
      } else if o + |ch| == |u| {
        assert w[|ch| - 1] == '>';
      } else {
        var mid := u[1..|u| - 1];
        assert w == mid[o - 1..o - 1 + |ch|];
        assert !OccursAt(mid, ch, o - 1);
      }
    }
  }

  /** One position of `ReplaceFirstCleansPrefix`. */
  lemma CleanBeforeTagEnd(a: string, u: string, b: string, ch: string, tagName: string, odd: bool, j: int)
    requires TagSafe(ch, tagName) && u == Tag(odd, tagName)
    requires forall k :: 0 <= k < |a| ==> !OccursAt(a + ch + b, ch, k)
    requires 0 <= j < |a| + |u|
    ensures !OccursAt(a + u + b, ch, j)
  {
    var r := a + u + b;
    TagShape(odd, tagName);
    if j + |ch| <= |r| {
      if j + |ch| <= |a| {
        assert !OccursAt(a + ch + b, ch, j);
        SameWindowInPrefix(a, u, b, ch, j);
      } else if j < |a| {
        assert r[|a|] == u[0];
        WindowOverForeign(r, ch, j, |a|);
      } else if j + |ch| <= |a| + |u| {
        NotInsideTag(ch, tagName, odd, j - |a|);
        assert r[j..j + |ch|] == u[j - |a|..j - |a| + |ch|];
      } else {
        assert r[|a| + |u| - 1] == u[|u| - 1];
        WindowOverForeign(r, ch, j, |a| + |u| - 1);
      }
    }
  }

  /** A window inside the untouched prefix reads the same before and after. */
  lemma SameWindowInPrefix(a: string, u: string, b: string, ch: string, j: int)
    requires 0 <= j && j + |ch| <= |a| && !OccursAt(a + ch + b, ch, j)
    ensures !OccursAt(a + u + b, ch, j)
  {
    assert (a + u + b)[j..j + |ch|] == a[j..j + |ch|] == (a + ch + b)[j..j + |ch|];
  }

  /** A window that covers a character the marker lacks is no occurrence. */
  lemma WindowOverForeign(r: string, ch: string, j: int, p: int)
    requires 0 <= j <= p < j + |ch| <= |r| && r[p] !in ch
    ensures !OccursAt(r, ch, j)
  {
    assert r[j..j + |ch|][p - j] == r[p];
  }

  /** Replacing the first occurrence by a tag leaves no occurrence that
      starts before the end of the tag. */
  lemma ReplaceFirstCleansPrefix(s: string, ch: string, tagName: string, odd: bool)
    requires TagSafe(ch, tagName) && IndexOf(s, ch).Some?
    ensures var i := IndexOf(s, ch).value;
      var u := Tag(odd, tagName);
      forall j :: 0 <= j < i + |u| ==> !OccursAt(ReplaceFirst(s, ch, u), ch, j)
  {
    var i := IndexOf(s, ch).value;
    var u := Tag(odd, tagName);
    var a, b := s[..i], s[i + |ch|..];
    assert s == a + ch + b;
    forall j | 0 <= j < i + |u| ensures !OccursAt(ReplaceFirst(s, ch, u), ch, j) {
      CleanBeforeTagEnd(a, u, b, ch, tagName, odd, j);
    }
  }

  /** What is left to scan: the text from the next marker on. */
  function Pending(s: string, ch: string): nat {
    match IndexOf(s, ch)
    case Some(i) => |s| - i
    case None => 0
  }

  /** The loop of `addStyleTags` as a recursion, from the tag parity `odd`. */
  function StyleTagsFrom(s: string, ch: string, tagName: string, odd: bool): (r: string)
    requires TagSafe(ch, tagName)
    ensures !Contains(r, ch)
    ensures !Contains(s, ch) ==> r == s
    decreases Pending(s, ch)
  {
    ContainsIffIndexOf(s, ch);
    if Contains(s, ch) then
      var next := ReplaceFirst(s, ch, Tag(odd, tagName));
      ReplaceFirstCleansPrefix(s, ch, tagName, odd);
      assert Pending(next, ch) < Pending(s, ch) by {
        var i := IndexOf(s, ch).value;
        if IndexOf(next, ch).Some? {
          assert IndexOf(next, ch).value >= i + |Tag(odd, tagName)|;
        }
      }
      StyleTagsFrom(next, ch, tagName, !odd)
    else s
  }

  /** `indexOf` finds the first occurrence. */
  lemma IndexOfFirst(s: string, t: string, i: nat)
    requires OccursAt(s, t, i) && forall j :: 0 <= j < i ==> !OccursAt(s, t, j)
    ensures IndexOf(s, t) == Some(i)
  {
  }

  /** `indexOf` finds nothing when there is no occurrence. */
  lemma IndexOfNone(s: string, t: string)
    requires forall j :: 0 <= j <= |s| ==> !OccursAt(s, t, j)
    ensures IndexOf(s, t).None?
  {
  }

  /** Replacing at a known first occurrence. */
  lemma ReplaceFirstAt(s: string, t: string, u: string, i: nat)
    requires IndexOf(s, t) == Some(i)
    ensures i + |t| <= |s| && ReplaceFirst(s, t, u) == s[..i] + u + s[i + |t|..]
  {
  }

  /** One round of the loop: the first marker becomes a tag. */
  lemma StyleTagsFromStep(s: string, ch: string, tagName: string, odd: bool)
    requires TagSafe(ch, tagName) && IndexOf(s, ch).Some?
    ensures StyleTagsFrom(s, ch, tagName, odd)
      == StyleTagsFrom(ReplaceFirst(s, ch, Tag(odd, tagName)), ch, tagName, !odd)
  {
    ContainsIffIndexOf(s, ch);
  }

  /** Replacing the first marker by a tag leaves less to scan. */
  lemma PendingShrinks(s: string, ch: string, tagName: string, odd: bool)
    requires TagSafe(ch, tagName) && IndexOf(s, ch).Some?
    ensures Pending(ReplaceFirst(s, ch, Tag(odd, tagName)), ch) < Pending(s, ch)
  {
    var next := ReplaceFirst(s, ch, Tag(odd, tagName));
    ReplaceFirstCleansPrefix(s, ch, tagName, odd);
    if IndexOf(next, ch).Some? {
      assert IndexOf(next, ch).value >= IndexOf(s, ch).value + |Tag(odd, tagName)|;
    }
  }

  /** No marker starts in the first `n` characters: they are done. */
  predicate CleanUpTo(s: string, ch: string, n: nat) {
    n <= |s| && forall k :: 0 <= k < n ==> !OccursAt(s, ch, k)
  }

  /** A window past the first `n` characters reads the rest. */
  lemma OccursPast(s: string, n: nat, ch: string, j: nat)
    requires n <= |s|
    ensures OccursAt(s, ch, n + j) <==> OccursAt(s[n..], ch, j)
  {
    if n + j + |ch| <= |s| {
      assert s[n..][j..j + |ch|] == s[n + j..n + j + |ch|];
    }
  }

  /** Past a clean stretch, the first marker is the first one of the rest. */
  lemma FirstPast(s: string, n: nat, ch: string, i: nat)
    requires CleanUpTo(s, ch, n)
    requires OccursAt(s[n..], ch, i) && forall j :: 0 <= j < i ==> !OccursAt(s[n..], ch, j)
    ensures IndexOf(s, ch) == Some(n + i)
  {
    OccursPast(s, n, ch, i);
    forall j | n <= j < n + i ensures !OccursAt(s, ch, j) {
      OccursPast(s, n, ch, j - n);
    }
    IndexOfFirst(s, ch, n + i);
  }

  /** Past a clean stretch, no marker in the rest means none at all. */
  lemma NonePast(s: string, n: nat, ch: string)
    requires CleanUpTo(s, ch, n)
    requires forall j :: 0 <= j <= |s| - n ==> !OccursAt(s[n..], ch, j)
    ensures IndexOf(s, ch).None?
  {
    forall j | n <= j <= |s| ensures !OccursAt(s, ch, j) {
      OccursPast(s, n, ch, j - n);
    }
    IndexOfNone(s, ch);
  }

  /** `indexOf` past a clean stretch. */
  lemma IndexOfPast(s: string, n: nat, ch: string)
    requires CleanUpTo(s, ch, n)
    ensures IndexOf(s[n..], ch).Some? ==> IndexOf(s, ch) == Some(n + IndexOf(s[n..], ch).value)
    ensures IndexOf(s[n..], ch).None? ==> IndexOf(s, ch).None?
  {
    var m := IndexOf(s[n..], ch);
    if m.Some? {
      FirstPast(s, n, ch, m.value);
    } else {
      NonePast(s, n, ch);
    }
  }

  /** Splicing past the first `n` characters keeps them. */
  lemma SplicePast(s: string, n: nat, m: nat, u: string, i: nat, whole: string, rest: string)
    requires n + i + m <= |s|
    requires whole == s[..n + i] + u + s[n + i + m..]
    requires rest == s[n..][..i] + u + s[n..][i + m..]
    ensures whole == s[..n] + rest
  {
    assert s[..n + i] == s[..n] + s[n..][..i];
    assert s[n + i + m..] == s[n..][i + m..];
  }

  /** The window test of a clean stretch ending in '>' only looks at the
      stretch itself. */
  lemma CleanCarries(s: string, s2: string, n: nat, ch: string)
    requires '>' !in ch && CleanUpTo(s, ch, n) && (n == 0 || s[n - 1] == '>')
    requires n <= |s2| && s2[..n] == s[..n]
    ensures CleanUpTo(s2, ch, n) && (n == 0 || s2[n - 1] == '>')
  {
    forall x | 0 <= x < n ensures s2[x] == s[x] {
      assert s2[..n][x] == s[..n][x];
    }
    forall k | 0 <= k < n ensures !OccursAt(s2, ch, k) {
      if k + |ch| <= n {
        assert s2[k..k + |ch|] == s[k..k + |ch|];
        assert !OccursAt(s, ch, k);
      } else if k + |ch| <= |s2| {
        WindowOverForeign(s2, ch, k, n - 1);
      }
    }
  }

  /** Replacing the first marker past a clean stretch keeps the stretch
      and replaces the first marker of the rest. */
  lemma ReplaceFirstPast(s: string, n: nat, ch: string, u: string)
    requires CleanUpTo(s, ch, n) && IndexOf(s[n..], ch).Some?
    ensures IndexOf(s, ch).Some?
    ensures ReplaceFirst(s, ch, u) == s[..n] + ReplaceFirst(s[n..], ch, u)
  {
    IndexOfPast(s, n, ch);
    ReplaceAtPast(s, n, ch, u, IndexOf(s[n..], ch).value);
  }

  /** The splice of `ReplaceFirstPast` at a known index. */
  lemma ReplaceAtPast(s: string, n: nat, ch: string, u: string, i: nat)
    requires n <= |s| && IndexOf(s, ch) == Some(n + i) && IndexOf(s[n..], ch) == Some(i)
    ensures ReplaceFirst(s, ch, u) == s[..n] + ReplaceFirst(s[n..], ch, u)
  {
    ReplaceFirstAt(s, ch, u, n + i);
    ReplaceFirstAt(s[n..], ch, u, i);
    SplicePast(s, n, |ch|, u, i, ReplaceFirst(s, ch, u), ReplaceFirst(s[n..], ch, u));
  }

  /** One round of the loop past a clean stretch ending in '>': the
      stretch stays, stays clean, and the rest takes the round alone. */
  lemma RoundPast(s: string, n: nat, ch: string, tagName: string, odd: bool)
    requires TagSafe(ch, tagName) && CleanUpTo(s, ch, n) && (n == 0 || s[n - 1] == '>')
    requires IndexOf(s[n..], ch).Some?
    ensures var u := Tag(odd, tagName);
      var s2 := ReplaceFirst(s, ch, u);
      var b2 := ReplaceFirst(s[n..], ch, u);
      CleanUpTo(s2, ch, n) && (n == 0 || s2[n - 1] == '>')
      && s2[..n] == s[..n] && s2[n..] == b2
      && Pending(b2, ch) < Pending(s[n..], ch)
      && StyleTagsFrom(s, ch, tagName, odd) == StyleTagsFrom(s2, ch, tagName, !odd)
      && StyleTagsFrom(s[n..], ch, tagName, odd) == StyleTagsFrom(b2, ch, tagName, !odd)
  {
    var u := Tag(odd, tagName);
    var s2 := ReplaceFirst(s, ch, u);
    ReplaceFirstPast(s, n, ch, u);
    assert s2[..n] == s[..n] && s2[n..] == ReplaceFirst(s[n..], ch, u);
    PendingShrinks(s[n..], ch, tagName, odd);
    CleanCarries(s, ReplaceFirst(s, ch, u), n, ch);
    StyleTagsFromStep(s[n..], ch, tagName, odd);
    StyleTagsFromStep(s, ch, tagName, odd);
  }

  /** Replacing markers leaves a clean stretch ending in '>' alone. */
  lemma {:induction false} StyleTagsFromPast(s: string, n: nat, ch: string, tagName: string, odd: bool)
    requires TagSafe(ch, tagName) && CleanUpTo(s, ch, n) && (n == 0 || s[n - 1] == '>')
    ensures StyleTagsFrom(s, ch, tagName, odd) == s[..n] + StyleTagsFrom(s[n..], ch, tagName, odd)
    decreases Pending(s[n..], ch)
  {
    if IndexOf(s[n..], ch).Some? {
      RoundPast(s, n, ch, tagName, odd);
      StyleTagsFromPast(ReplaceFirst(s, ch, Tag(odd, tagName)), n, ch, tagName, !odd);
    } else {
      DonePast(s, n, ch, tagName, odd);
    }
  }

  /** With no marker past a clean stretch there is nothing to replace. */
  lemma DonePast(s: string, n: nat, ch: string, tagName: string, odd: bool)
    requires TagSafe(ch, tagName) && CleanUpTo(s, ch, n) && IndexOf(s[n..], ch).None?
    ensures StyleTagsFrom(s, ch, tagName, odd) == s[..n] + StyleTagsFrom(s[n..], ch, tagName, odd)
  {
    IndexOfPast(s, n, ch);
    ContainsIffIndexOf(s[n..], ch);
    ContainsIffIndexOf(s, ch);
    assert s == s[..n] + s[n..];
  }

  /** The first marker becomes the tag of the current parity and the rest
      is styled from the other parity: markers turn into opening and
      closing tags in turn. */
  lemma StyleTagsFromFirstMarker(a: string, b: string, ch: string, tagName: string, odd: bool)
    requires TagSafe(ch, tagName) && IndexOf(a + ch + b, ch) == Some(|a|)
    ensures StyleTagsFrom(a + ch + b, ch, tagName, odd)
      == a + Tag(odd, tagName) + StyleTagsFrom(b, ch, tagName, !odd)
  {
    var s := a + ch + b;
    var u := Tag(odd, tagName);
    var next := a + u + b;
    var n := |a| + |u|;
    assert ReplaceFirst(s, ch, u) == next by {
      ReplaceFirstAt(s, ch, u, |a|);
      assert s[..|a|] == a && s[|a| + |ch|..] == b;
    }
    StyleTagsFromStep(s, ch, tagName, odd);
    assert CleanUpTo(next, ch, n) && next[n - 1] == '>' by {
      TagShape(odd, tagName);
      assert next[n - 1] == u[|u| - 1];
      forall k | 0 <= k < n ensures !OccursAt(next, ch, k) {
        CleanBeforeTagEnd(a, u, b, ch, tagName, odd, k);
      }
    }
    StyleTagsFromPast(next, n, ch, tagName, !odd);
    assert next[..n] == a + u && next[n..] == b;
  }

  /** Two markers around a stretch of text make one tagged stretch: the
      first becomes the opening tag, the second the closing one. */
  lemma StyleTagsPair(a: string, b: string, c: string, ch: string, tagName: string)
    requires TagSafe(ch, tagName)
    requires IndexOf(a + ch + (b + ch + c), ch) == Some(|a|)
    requires IndexOf(b + ch + c, ch) == Some(|b|) && !Contains(c, ch)
    ensures StyleTags(a + ch + (b + ch + c), ch, tagName)
      == a + Tag(true, tagName) + (b + Tag(false, tagName) + c)
  {
    StyleTagsFromFirstMarker(a, b + ch + c, ch, tagName, true);
    StyleTagsFromFirstMarker(b, c, ch, tagName, false);
  }

  /** `addStyleTags(str, char, tagName)`, starting with an opening tag. */
  function StyleTags(s: string, ch: string, tagName: string): (r: string)
    requires TagSafe(ch, tagName)
    ensures !Contains(r, ch)
  {
    StyleTagsFrom(s, ch, tagName, true)
  }

  /** The `while` loop of `addStyleTags`. The ghost `clean` marks how far
      the text is known to hold no marker. */
  method AddStyleTags(str: string, ch: string, tagName: string) returns (r: string)
    requires TagSafe(ch, tagName)
    ensures r == StyleTags(str, ch, tagName)
    ensures !Contains(r, ch)
  {
    var odd := true;
    r := str;
    ghost var clean := 0;
    ContainsIffIndexOf(r, ch);
    while Contains(r, ch)
      invariant StyleTagsFrom(r, ch, tagName, odd) == StyleTags(str, ch, tagName)
      invariant clean <= |r|
      invariant forall j :: 0 <= j < clean ==> !OccursAt(r, ch, j)
      decreases |r| - clean
    {
      var tag := if odd then "<" + tagName + ">" else "</" + tagName + ">";
      ContainsIffIndexOf(r, ch);
      var i := IndexOf(r, ch).value;
      assert clean <= i;
      ReplaceFirstCleansPrefix(r, ch, tagName, odd);
      r := ReplaceFirst(r, ch, tag);
      clean := i + |tag|;
      odd := !odd;
      ContainsIffIndexOf(r, ch);
    }
  }

  lemma NoMarkerInTagNames()
    ensures !Contains("/u", "__") && !Contains("/b", "**") && !Contains("/i", "*")
  {
    assert "/u"[..2][0] == '/' && "/b"[..2][0] == '/' && "/i"[..1][0] == '/';
    assert "/u"[1..] == "u" && "/b"[1..] == "b" && "/i"[1..] == "i";
    assert !Contains("u", "__") && !Contains("b", "**");
    assert "i"[..1][0] == 'i' && "i"[1..] == "" && !Contains("", "*");
  }

  /** The three rewrites `println` applies to a line that is not an image. */
  function Styled(line: string): (r: string)
    ensures !Contains(r, "*")
  {
    NoMarkerInTagNames();
    StyleTags(StyleTags(StyleTags(line, "__", "u"), "**", "b"), "*", "i")
  }
}
