/** The string rules of js/app.js: where a node's icon is looked up, and the
    label rule that marks a node as stackable. */
module HostText {
  import opened Types

  /** JavaScript white space and line terminators: what `String.prototype.trim`
      removes and what `\s` matches in a regular expression. */
  predicate IsSpace(c: char) {
    || c in {'\t', '\n', '\U{000B}', '\U{000C}', '\r', ' ', '\U{00A0}', '\U{1680}',
             '\U{2028}', '\U{2029}', '\U{202F}', '\U{205F}', '\U{3000}', '\U{FEFF}'}
    || ('\U{2000}' <= c <= '\U{200A}')
  }

  predicate AllSpace(s: string) {
    forall i | 0 <= i < |s| :: IsSpace(s[i])
  }

  function StartsWith(s: string, p: string): bool {
    |p| <= |s| && s[..|p|] == p
  }

  /** The length of the longest all-white-space prefix. */
  function LeadingSpaces(s: string): (n: nat)
    ensures n <= |s|
  {
    if s != [] && IsSpace(s[0]) then 1 + LeadingSpaces(s[1..]) else 0
  }

  /** The prefix counted is white space and the character after it is not. */
  lemma {:induction false} LeadingSpacesSpec(s: string)
    ensures forall i | 0 <= i < LeadingSpaces(s) :: IsSpace(s[i])
    ensures LeadingSpaces(s) == |s| || !IsSpace(s[LeadingSpaces(s)])
  {
    if s != [] && IsSpace(s[0]) {
      LeadingSpacesSpec(s[1..]);
      forall i | 0 < i < LeadingSpaces(s) ensures IsSpace(s[i]) {
        assert s[i] == s[1..][i - 1];
      }
    }
  }

  /** The length of the longest all-white-space suffix. */
  function TrailingSpaces(s: string): (n: nat)
    ensures n <= |s|
  {
    if s != [] && IsSpace(s[|s| - 1]) then 1 + TrailingSpaces(s[..|s| - 1]) else 0
  }

  /** The suffix counted is white space and the character before it is not. */
  lemma {:induction false} TrailingSpacesSpec(s: string)
    ensures forall i | |s| - TrailingSpaces(s) <= i < |s| :: IsSpace(s[i])
    ensures TrailingSpaces(s) == |s| || !IsSpace(s[|s| - 1 - TrailingSpaces(s)])
  {
    if s != [] && IsSpace(s[|s| - 1]) {
      var init := s[..|s| - 1];
      TrailingSpacesSpec(init);
      forall i | |s| - TrailingSpaces(s) <= i < |s| - 1 ensures IsSpace(s[i]) {
        assert s[i] == init[i];
      }
    }
  }

  /** `String.prototype.trim`. */
  function Trim(s: string): (r: string)
    ensures |r| <= |s|
  {
    var rest := s[LeadingSpaces(s)..];
    rest[..|rest| - TrailingSpaces(rest)]
  }

  /** `trim` gives the empty string exactly for all-white-space text, and
      otherwise text that neither starts nor ends with white space. */
  lemma TrimSpec(s: string)
    ensures Trim(s) == "" <==> AllSpace(s)
    ensures Trim(s) != "" ==> !IsSpace(Trim(s)[0]) && !IsSpace(Trim(s)[|Trim(s)| - 1])
  {
    var a := LeadingSpaces(s);
    var rest := s[a..];
    var b := TrailingSpaces(rest);
    LeadingSpacesSpec(s);
    TrailingSpacesSpec(rest);
    TrimAt(s, a, rest, b);
    if a < |s| {
      assert rest[0] == s[a];
      assert b < |rest|;
      assert !AllSpace(s);
    }
  }

  /** `Trim` with its two counts named. */
  lemma TrimAt(x: string, a: nat, rest: string, b: nat)
    requires a == LeadingSpaces(x) && rest == x[a..] && b == TrailingSpaces(rest)
    ensures Trim(x) == rest[..|rest| - b]
  {
  }

  lemma {:induction false} LeadingSpacesPadded(p: string, s: string)
    requires AllSpace(p)
    ensures LeadingSpaces(p + s) == |p| + LeadingSpaces(s)
  {
    if p != [] {
      assert (p + s)[1..] == p[1..] + s;
      LeadingSpacesPadded(p[1..], s);
    } else {
      assert p + s == s;
    }
  }

  /** White space after a non-space character does not change the count. */
  lemma {:induction false} LeadingSpacesStops(s: string, q: string)
    requires LeadingSpaces(s) < |s|
    ensures LeadingSpaces(s + q) == LeadingSpaces(s)
  {
    if IsSpace(s[0]) {
      assert (s + q)[1..] == s[1..] + q;
      LeadingSpacesStops(s[1..], q);
    }
  }

  lemma {:induction false} TrailingSpacesPadded(s: string, q: string)
    requires AllSpace(q)
    ensures TrailingSpaces(s + q) == |q| + TrailingSpaces(s)
  {
    if q != [] {
      var q' := q[..|q| - 1];
      assert (s + q)[..|s + q| - 1] == s + q';
      TrailingSpacesPadded(s, q');
    } else {
      assert s + q == s;
    }
  }

  /** Trimming ignores white space around the text. */
  lemma TrimPadded(p: string, s: string, q: string)
    requires AllSpace(p) && AllSpace(q)
    ensures Trim(p + s + q) == Trim(s)
  {
    if AllSpace(s) {
      AllSpaceJoined(p, s, q);
      TrimSpec(s);
      TrimSpec(p + s + q);
    } else {
      TrimPaddedText(p, s, q);
    }
  }

  lemma AllSpaceJoined(p: string, s: string, q: string)
    requires AllSpace(p) && AllSpace(s) && AllSpace(q)
    ensures AllSpace(p + s + q)
  {
    forall i | 0 <= i < |p + s + q| ensures IsSpace((p + s + q)[i]) {
      if i < |p| {
        assert (p + s + q)[i] == p[i];
      } else if i < |p| + |s| {
        assert (p + s + q)[i] == s[i - |p|];
      } else {
        assert (p + s + q)[i] == q[i - |p| - |s|];
      }
    }
  }

  /** Padding around text that is not all white space is cut off again. */
  lemma TrimPaddedText(p: string, s: string, q: string)
    requires AllSpace(p) && AllSpace(q) && !AllSpace(s)
    ensures Trim(p + s + q) == Trim(s)
  {
    var a := LeadingSpaces(s);
    LeadingSpacesSpec(s);
    LeadingOfPadded(p, s, q);
    var rest := s[a..];
    SliceOfPadded(p, s, q, a);
    TrailingSpacesPadded(rest, q);
    var b := TrailingSpaces(rest);
    CutPadding(rest, q, b);
    TrimAt(p + s + q, |p| + a, rest + q, |q| + b);
    TrimAt(s, a, rest, b);
  }

  lemma LeadingOfPadded(p: string, s: string, q: string)
    requires AllSpace(p) && LeadingSpaces(s) < |s|
    ensures LeadingSpaces(p + s + q) == |p| + LeadingSpaces(s)
  {
    assert p + s + q == p + (s + q);
    LeadingSpacesPadded(p, s + q);
    LeadingSpacesStops(s, q);
  }

  lemma SliceOfPadded(p: string, s: string, q: string, a: nat)
    requires a <= |s|
    ensures (p + s + q)[|p| + a..] == s[a..] + q
  {
  }

  lemma CutPadding(rest: string, q: string, b: nat)
    requires b <= |rest|
    ensures (rest + q)[..|rest + q| - (|q| + b)] == rest[..|rest| - b]
  {
  }

  // ---------------------------------------------------------------------
  // iconPath

  const ICON_DIR: string := "img/icons/"

  /** Icon values used as they are: an http(s) URL or an absolute or
      explicitly relative path. */
  predicate PassesThrough(p: string) {
    StartsWith(p, "http://") || StartsWith(p, "https://")
    || StartsWith(p, "/") || StartsWith(p, "./") || StartsWith(p, "../")
  }

  /** `iconPath`: none for an empty or all-white-space icon; a URL or path
      is kept; any other name is looked up in the icon directory. */
  function IconPath(icon: string): (r: Option<string>)
    ensures r.None? <==> AllSpace(icon)
    ensures r.Some? && PassesThrough(Trim(icon)) ==> r.value == Trim(icon)
    ensures r.Some? && !PassesThrough(Trim(icon)) ==> r.value == ICON_DIR + Trim(icon)
  {
    TrimSpec(icon);
    var explicit := Trim(icon);
    if explicit == "" then None
    else if PassesThrough(explicit) then Some(explicit)
    else Some(ICON_DIR + explicit)
  }

  /** White space around the icon value never changes the path. */
  lemma IconPathPadded(p: string, icon: string, q: string)
    requires AllSpace(p) && AllSpace(q)
    ensures IconPath(p + icon + q) == IconPath(icon)
  {
    TrimPadded(p, icon, q);
  }

  // ---------------------------------------------------------------------
  // The label rule of isStackableNode: /expans[aã]o\s+de\s+aura/ on the
  // lower-cased label

  /** `toLowerCase` on the letters the pattern looks for (A-Z and Ã); every
      other character is kept, and none of them lower-cases to a character
      of the pattern or to white space. */
  function LowerChar(c: char): char {
    if 'A' <= c <= 'Z' then (c as int + 32) as char
    else if c == '\U{00C3}' then '\U{00E3}'
    else c
  }

  function Lower(s: string): (r: string)
    ensures |r| == |s|
  {
    if s == [] then [] else [LowerChar(s[0])] + Lower(s[1..])
  }

  lemma {:induction false} LowerAt(s: string, i: nat)
    requires i < |s|
    ensures Lower(s)[i] == LowerChar(s[i])
  {
    if i > 0 {
      LowerAt(s[1..], i - 1);
    }
  }

  /** `\s+aura`: one or more white-space characters, then "aura". */
  predicate SpacesThenAura(s: string)
    decreases |s|
  {
    |s| >= 1 && IsSpace(s[0]) && (StartsWith(s[1..], "aura") || SpacesThenAura(s[1..]))
  }

  /** `\s+de\s+aura`. */
  predicate SpacesThenDe(s: string)
    decreases |s|
  {
    && |s| >= 1 && IsSpace(s[0])
    && ((StartsWith(s[1..], "de") && SpacesThenAura(s[3..])) || SpacesThenDe(s[1..]))
  }

  /** The pattern matches at the start of `s`. */
  predicate AuraAt(s: string) {
    && |s| >= 8 && StartsWith(s, "expans") && (s[6] == 'a' || s[6] == '\U{00E3}') && s[7] == 'o'
    && SpacesThenDe(s[8..])
  }

  /** The pattern matches somewhere in `s`: at its start, or further on. */
  predicate MentionsAura(s: string)
    decreases |s|
  {
    |s| >= 8 && (AuraAt(s) || MentionsAura(s[1..]))
  }

  /** `isStackableNode` for a known node: the explicit flag, or a label
      naming the aura expansion. */
  predicate IsStackable(n: Node) {
    n.stackable || MentionsAura(Lower(n.name))
  }

  lemma StartsWithExtended(s: string, p: string, q: string)
    requires StartsWith(s, p)
    ensures StartsWith(s + q, p)
  {
    assert (s + q)[..|p|] == s[..|p|];
  }

  lemma {:induction false} SpacesThenAuraExtended(s: string, q: string)
    requires SpacesThenAura(s)
    ensures SpacesThenAura(s + q)
    decreases |s|
  {
    assert (s + q)[1..] == s[1..] + q;
    if StartsWith(s[1..], "aura") {
      StartsWithExtended(s[1..], "aura", q);
    } else {
      SpacesThenAuraExtended(s[1..], q);
    }
  }

  lemma {:induction false} SpacesThenDeExtended(s: string, q: string)
    requires SpacesThenDe(s)
    ensures SpacesThenDe(s + q)
    decreases |s|
  {
    assert (s + q)[1..] == s[1..] + q;
    if StartsWith(s[1..], "de") && SpacesThenAura(s[3..]) {
      StartsWithExtended(s[1..], "de", q);
      SpacesThenAuraExtended(s[3..], q);
      assert (s + q)[3..] == s[3..] + q;
    } else {
      SpacesThenDeExtended(s[1..], q);
    }
  }

  /** Text after a match does not undo it. */
  lemma AuraAtExtended(s: string, q: string)
    requires AuraAt(s)
    ensures AuraAt(s + q)
  {
    StartsWithExtended(s, "expans", q);
    SpacesThenDeExtended(s[8..], q);
    assert (s + q)[8..] == s[8..] + q;
  }

  lemma {:induction false} MentionsAuraExtended(s: string, q: string)
    requires MentionsAura(s)
    ensures MentionsAura(s + q)
    decreases |s|
  {
    if AuraAt(s) {
      AuraAtExtended(s, q);
    } else {
      MentionsAuraExtended(s[1..], q);
      assert (s + q)[1..] == s[1..] + q;
    }
  }

  lemma {:induction false} MentionsAuraPrefixed(p: string, s: string)
    requires MentionsAura(s)
    ensures MentionsAura(p + s)
  {
    if p == [] {
      assert p + s == s;
    } else {
      MentionsAuraPrefixed(p[1..], s);
      assert (p + s)[1..] == p[1..] + s;
    }
  }

  /** The pattern is unanchored: text before or after a matching label does
      not undo the match. */
  lemma MentionsAuraInContext(p: string, s: string, q: string)
    requires MentionsAura(s)
    ensures MentionsAura(p + s + q)
  {
    MentionsAuraExtended(s, q);
    MentionsAuraPrefixed(p, s + q);
    assert p + s + q == p + (s + q);
  }

  /** "expansão de aura" matches at its start. */
  lemma AuraLiteral()
    ensures AuraAt("expans\U{00E3}o de aura")
  {
    var low := "expans\U{00E3}o de aura";
    assert low[..6] == "expans";
    assert low[8..] == " de aura";
    assert " de aura"[1..][..2] == "de";
    assert " de aura"[3..] == " aura";
    assert " aura"[1..] == "aura";
  }

  /** Lower-casing the label "Expansão de Aura". */
  lemma LowerAuraLabel(name: string)
    requires name == "Expans\U{00E3}o de Aura"
    ensures Lower(name) == "expans\U{00E3}o de aura"
  {
    var low := "expans\U{00E3}o de aura";
    forall i | 0 <= i < |name|
      ensures Lower(name)[i] == low[i]
    {
      LowerAt(name, i);
    }
  }

  /** A node labelled "Expansão de Aura" is stackable without the flag. */
  lemma AuraLabelIsStackable(n: Node)
    requires n.name == "Expans\U{00E3}o de Aura"
    ensures IsStackable(n)
  {
    LowerAuraLabel(n.name);
    AuraLiteral();
  }
}
