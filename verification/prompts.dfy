/** The prompt composer (`generateIconPrompts` and `getIconVariations`):
    one theme, one style and an optional colour list become exactly four
    prompts, one per variation slot. */
module Prompts {
  import opened Text
  import opened Catalog

  /** The four variation phrases, in slot order (first to fourth). */
  const VariationPhrases: seq<string> := [
    "first variation, unique representation",
    "second variation, different perspective",
    "third variation, alternative concept",
    "fourth variation, creative interpretation"
  ]

  /** What follows the theme in every variation phrase. */
  const DesignLead := " icon design, "

  /** The size and quality directives every prompt carries. */
  const QualitySuffix := ", single icon, " + SizeToken + ", high quality, isolated on background"

  const SizeToken := "512x512"

  const ColorInstructionLead := "IMPORTANT: Use only these brand colors: "

  const StrictColorsLead := ", " + StrictColorsPhrase

  const StrictColorsPhrase := "strictly use colors: "

  /** The hard-coded colour phrases of the preset texts, in the order they
      are rewritten. */
  const ColorPatterns: seq<string> := [
    "lavender purple to " + "soft pink to cream yellow",
    "pink to purple to yellow",
    "purple-blue",
    "pastel mint and pink",
    "blue plastic material" + ", " + "cyan and blue gradient",
    "cyan and blue gradient",
    "dark teal green"
  ]

  /** `getIconVariations`: the four variation phrases with the theme
      interpolated. */
  function IconVariations(theme: string): (r: seq<string>)
    ensures |r| == |VariationPhrases|
    ensures forall k :: 0 <= k < |r| ==> r[k] == theme + DesignLead + VariationPhrases[k]
  {
    [
      theme + DesignLead + VariationPhrases[0],
      theme + DesignLead + VariationPhrases[1],
      theme + DesignLead + VariationPhrases[2],
      theme + DesignLead + VariationPhrases[3]
    ]
  }

  /** `colors.join(" and ")`. */
  function ColorString(colors: seq<string>): string {
    Join(colors, " and ")
  }

  /** `colors[0] || fallback`: the first colour unless it is missing or the
      empty string. */
  function FirstOr(colors: seq<string>, fallback: string): string {
    if |colors| > 0 && colors[0] != "" then colors[0] else fallback
  }

  /** What each pattern of `ColorPatterns` is replaced by: the joined colour
      phrase, except that the bubble and badge colours take the first colour
      only and the plastic material keeps its material wording. */
  function ColorReplacements(colors: seq<string>): (r: seq<string>)
    ensures |r| == |ColorPatterns|
  {
    var cs := ColorString(colors);
    [cs, cs, FirstOr(colors, "purple-blue"), cs, "plastic material in " + cs, cs, FirstOr(colors, "dark teal green")]
  }

  /** Applies the global replacements `pats[i] -> reps[i]` one after the
      other, each to the output of the previous one. */
  function ReplaceEach(s: string, pats: seq<string>, reps: seq<string>): string
    requires |pats| == |reps|
    requires forall i :: 0 <= i < |pats| ==> pats[i] != []
    decreases |pats|
  {
    if pats == [] then s
    else ReplaceEach(ReplaceAll(s, pats[0], reps[0]), pats[1..], reps[1..])
  }

  /** A text containing none of the patterns comes out of the whole chain
      unchanged. */
  lemma {:induction false} ReplaceEachAbsent(s: string, pats: seq<string>, reps: seq<string>)
    requires |pats| == |reps|
    requires forall i :: 0 <= i < |pats| ==> pats[i] != []
    requires forall i :: 0 <= i < |pats| ==> !Contains(s, pats[i])
    ensures ReplaceEach(s, pats, reps) == s
    decreases |pats|
  {
    if pats != [] {
      ReplaceAllAbsent(s, pats[0], reps[0]);
      assert forall i :: 0 <= i < |pats| - 1 ==> pats[1..][i] == pats[i + 1];
      ReplaceEachAbsent(s, pats[1..], reps[1..]);
    }
  }

  /** A chain in which only step `h` finds its pattern: the text before it
      holds none of the earlier patterns and the text it produces none of
      the later ones, so the chain's result is that one step's. */
  lemma {:induction false} ReplaceEachThrough(s: string, pats: seq<string>, reps: seq<string>, h: nat, t: string)
    requires |pats| == |reps| && h < |pats|
    requires forall i :: 0 <= i < |pats| ==> pats[i] != []
    requires forall i :: 0 <= i < h ==> !Contains(s, pats[i])
    requires ReplaceAll(s, pats[h], reps[h]) == t
    requires forall i :: h < i < |pats| ==> !Contains(t, pats[i])
    ensures ReplaceEach(s, pats, reps) == t
    decreases |pats|
  {
    assert forall i :: 0 <= i < |pats| - 1 ==> pats[1..][i] == pats[i + 1];
    if h == 0 {
      ReplaceEachAbsent(t, pats[1..], reps[1..]);
    } else {
      ReplaceAllAbsent(s, pats[0], reps[0]);
      ReplaceEachThrough(s, pats[1..], reps[1..], h - 1, t);
    }
  }

  /** The style modifier with its built-in colour phrases rewritten to the
      supplied colours. */
  function RecolorModifier(modifier: string, colors: seq<string>): string {
    ReplaceEach(modifier, ColorPatterns, ColorReplacements(colors))
  }

  /** The modifier a prompt carries: rewritten when colours are supplied,
      the preset's own text otherwise. */
  function ModifierFor(style: StylePreset, colors: seq<string>): string {
    if |colors| > 0 then RecolorModifier(style.promptModifier, colors) else style.promptModifier
  }

  /** One prompt: the variation phrase, the modifier and the fixed suffix,
      wrapped in the colour instruction and the closing colour constraint
      when colours are supplied. */
  function ComposePrompt(variation: string, style: StylePreset, colors: seq<string>): string {
    if |colors| > 0 then
      var cs := ColorString(colors);
      ColorInstructionLead + cs + ". " + variation + ", " + RecolorModifier(style.promptModifier, colors)
        + QualitySuffix + StrictColorsLead + cs
    else
      variation + ", " + style.promptModifier + QualitySuffix
  }

  /** `generateIconPrompts(theme, style, colors)`. An absent `colors` and an
      empty one behave alike, so both are the empty sequence here. */
  function GenerateIconPrompts(theme: string, style: StylePreset, colors: seq<string>): (r: seq<string>)
    ensures |r| == 4
  {
    var variations := IconVariations(theme);
    seq(4, k requires 0 <= k < 4 => ComposePrompt(variations[k], style, colors))
  }

  /** The part of every prompt that comes before the variation phrase. */
  function PromptHead(theme: string, colors: seq<string>): string {
    (if |colors| > 0 then ColorInstructionLead + ColorString(colors) + ". " else "") + theme + DesignLead
  }

  /** The part of every prompt that comes after the variation phrase. */
  function PromptTail(style: StylePreset, colors: seq<string>): string {
    ", " + ModifierFor(style, colors) + QualitySuffix
      + (if |colors| > 0 then StrictColorsLead + ColorString(colors) else "")
  }

  /** The four prompts share one head and one tail and differ only in their
      variation phrase, which appears in slot order. */
  lemma PromptsDifferOnlyInVariation(theme: string, style: StylePreset, colors: seq<string>)
    ensures forall k :: 0 <= k < 4 ==>
      GenerateIconPrompts(theme, style, colors)[k]
        == PromptHead(theme, colors) + VariationPhrases[k] + PromptTail(style, colors)
  {
    var r := GenerateIconPrompts(theme, style, colors);
    var m := ModifierFor(style, colors);
    forall k | 0 <= k < 4
      ensures r[k] == PromptHead(theme, colors) + VariationPhrases[k] + PromptTail(style, colors)
    {
      var v := IconVariations(theme)[k];
      assert r[k] == ComposePrompt(v, style, colors);
      if |colors| > 0 {
        var cs := ColorString(colors);
        RegroupColored(ColorInstructionLead, cs, ". ", theme, DesignLead, VariationPhrases[k],
                       ", ", m, QualitySuffix, StrictColorsLead);
      } else {
        RegroupPlain(theme, DesignLead, VariationPhrases[k], ", ", m, QualitySuffix);
      }
    }
  }

  /** A coloured prompt regrouped around its variation phrase. */
  lemma RegroupColored(lead: string, cs: string, dot: string, theme: string, dl: string, v: string,
                       comma: string, m: string, q: string, strict: string)
    ensures lead + cs + dot + (theme + dl + v) + comma + m + q + strict + cs
         == (lead + cs + dot + theme + dl) + v + (comma + m + q + (strict + cs))
  {
  }

  /** A plain prompt regrouped around its variation phrase. */
  lemma RegroupPlain(theme: string, dl: string, v: string, comma: string, m: string, q: string)
    ensures (theme + dl + v) + comma + m + q == ("" + theme + dl) + v + (comma + m + q + "")
  {
  }

  /** Two prompts with the same head and tail but different variation
      phrases differ. */
  lemma VariationPhrasesSeparate(head: string, tail: string, j: nat, k: nat)
    requires j < k < 4
    ensures head + VariationPhrases[j] + tail != head + VariationPhrases[k] + tail
  {
    var a := head + VariationPhrases[j] + tail;
    var b := head + VariationPhrases[k] + tail;
    var n := |head|;
    assert a[n] == VariationPhrases[j][0] && a[n + 1] == VariationPhrases[j][1];
    assert b[n] == VariationPhrases[k][0] && b[n + 1] == VariationPhrases[k][1];
  }

  /** The four prompts are pairwise distinct. */
  lemma PromptsDistinct(theme: string, style: StylePreset, colors: seq<string>)
    ensures forall j, k :: 0 <= j < k < 4 ==>
      GenerateIconPrompts(theme, style, colors)[j] != GenerateIconPrompts(theme, style, colors)[k]
  {
    PromptsDifferOnlyInVariation(theme, style, colors);
    var head := PromptHead(theme, colors);
    var tail := PromptTail(style, colors);
    forall j: nat, k: nat | j < k < 4
      ensures GenerateIconPrompts(theme, style, colors)[j] != GenerateIconPrompts(theme, style, colors)[k]
    {
      VariationPhrasesSeparate(head, tail, j, k);
    }
  }

  /** Where the theme, the modifier and the size token sit in a prompt of
      the shape head + variation + tail. */
  lemma PromptPieces(lead: string, theme: string, dl: string, v: string,
                     m: string, q1: string, q2: string, strict: string)
    ensures var p := (lead + theme + dl) + v + (", " + m + (q1 + SizeToken + q2) + strict);
      Contains(p, theme) && Contains(p, m) && Contains(p, SizeToken)
  {
    var p := (lead + theme + dl) + v + (", " + m + (q1 + SizeToken + q2) + strict);
    assert Contains(p, theme) by {
      assert p == lead + theme + (dl + v + ", " + m + q1 + SizeToken + q2 + strict);
      ContainsMiddle(lead, theme, dl + v + ", " + m + q1 + SizeToken + q2 + strict);
    }
    assert Contains(p, m) by {
      assert p == (lead + theme + dl + v + ", ") + m + (q1 + SizeToken + q2 + strict);
      ContainsMiddle(lead + theme + dl + v + ", ", m, q1 + SizeToken + q2 + strict);
    }
    assert p == (lead + theme + dl + v + ", " + m + q1) + SizeToken + (q2 + strict);
    ContainsMiddle(lead + theme + dl + v + ", " + m + q1, SizeToken, q2 + strict);
  }

  /** Every prompt mentions the theme, the size token "512x512" and the
      modifier in use (the preset's own text when no colours are given). */
  lemma PromptsContainThemeAndSize(theme: string, style: StylePreset, colors: seq<string>)
    ensures forall k :: 0 <= k < 4 ==>
      && Contains(GenerateIconPrompts(theme, style, colors)[k], theme)
      && Contains(GenerateIconPrompts(theme, style, colors)[k], SizeToken)
      && Contains(GenerateIconPrompts(theme, style, colors)[k], ModifierFor(style, colors))
  {
    PromptsDifferOnlyInVariation(theme, style, colors);
    var lead := if |colors| > 0 then ColorInstructionLead + ColorString(colors) + ". " else "";
    var strict := if |colors| > 0 then StrictColorsLead + ColorString(colors) else "";
    forall k | 0 <= k < 4
      ensures var p := GenerateIconPrompts(theme, style, colors)[k];
        Contains(p, theme) && Contains(p, SizeToken) && Contains(p, ModifierFor(style, colors))
    {
      PromptPieces(lead, theme, DesignLead, VariationPhrases[k], ModifierFor(style, colors),
                   ", single icon, ", ", high quality, isolated on background", strict);
    }
  }

  /** Without colours a prompt is exactly the variation, the preset's
      unmodified modifier and the fixed suffix. */
  lemma PromptsWithoutColors(theme: string, style: StylePreset)
    ensures forall k :: 0 <= k < 4 ==>
      GenerateIconPrompts(theme, style, [])[k]
        == theme + DesignLead + VariationPhrases[k] + ", " + style.promptModifier + QualitySuffix
  {
    PromptsDifferOnlyInVariation(theme, style, []);
    forall k | 0 <= k < 4
      ensures GenerateIconPrompts(theme, style, [])[k]
        == theme + DesignLead + VariationPhrases[k] + ", " + style.promptModifier + QualitySuffix
    {
      RegroupPlain(theme, DesignLead, VariationPhrases[k], ", ", style.promptModifier, QualitySuffix);
    }
  }

  /** With colours, the head opens with the instruction naming the joined
      colours, and so contains every colour. */
  lemma ColoredHead(theme: string, colors: seq<string>)
    requires |colors| > 0
    ensures ColorInstructionLead + Join(colors, " and ") + ". " <= PromptHead(theme, colors)
    ensures forall i :: 0 <= i < |colors| ==> Contains(PromptHead(theme, colors), colors[i])
  {
    var cs := Join(colors, " and ");
    OpensWith(ColorInstructionLead + cs + ". ", theme, DesignLead);
    JoinContainsEach(colors, " and ");
    forall i | 0 <= i < |colors|
      ensures Contains(PromptHead(theme, colors), colors[i])
    {
      ContainsSecond(ColorInstructionLead, cs, ". ", theme, DesignLead, colors[i]);
    }
  }

  /** With colours, the tail closes with the strict colour constraint. */
  lemma ColoredTail(style: StylePreset, colors: seq<string>)
    requires |colors| > 0
    ensures EndsWith(PromptTail(style, colors), StrictColorsPhrase + Join(colors, " and "))
  {
    ClosesWith(", " + ModifierFor(style, colors) + QualitySuffix, ", ", StrictColorsPhrase, Join(colors, " and "));
  }

  lemma OpensWith(o: string, x: string, y: string)
    ensures o <= o + x + y
  {
    assert (o + x + y)[..|o|] == o;
  }

  lemma ContainsSecond(a: string, b: string, c: string, d: string, e: string, t: string)
    requires Contains(b, t)
    ensures Contains(a + b + c + d + e, t)
  {
    ContainsAppend(b, c + d + e, t);
    ContainsPrepend(a, b + (c + d + e), t);
    assert a + b + c + d + e == a + (b + (c + d + e));
  }

  lemma ClosesWith(f: string, comma: string, phrase: string, cs: string)
    ensures EndsWith(f + ((comma + phrase) + cs), phrase + cs)
  {
    var t := f + ((comma + phrase) + cs);
    assert t[|t| - |phrase + cs|..] == phrase + cs;
  }

  /** A prefix of the head and a suffix of the tail carry over to head +
      variation + tail. */
  lemma Through(head: string, v: string, tail: string, opening: string, closing: string)
    requires opening <= head && EndsWith(tail, closing)
    ensures opening <= head + v + tail && EndsWith(head + v + tail, closing)
  {
    var p := head + v + tail;
    assert p[..|head|] == head;
    assert p[|p| - |tail|..] == tail;
    assert p[|p| - |closing|..] == tail[|tail| - |closing|..];
  }

  /** A text inside the head is inside head + variation + tail. */
  lemma ContainsThrough(head: string, v: string, tail: string, x: string)
    requires Contains(head, x)
    ensures Contains(head + v + tail, x)
  {
    ContainsAppend(head, v + tail, x);
    assert head + v + tail == head + (v + tail);
  }

  /** With colours every prompt opens with the instruction naming the
      joined colours, closes with the strict colour constraint, and so
      mentions every supplied colour. */
  lemma PromptsWithColors(theme: string, style: StylePreset, colors: seq<string>)
    requires |colors| > 0
    ensures forall k :: 0 <= k < 4 ==>
      ColorInstructionLead + Join(colors, " and ") + ". " <= GenerateIconPrompts(theme, style, colors)[k]
    ensures forall k :: 0 <= k < 4 ==>
      EndsWith(GenerateIconPrompts(theme, style, colors)[k], StrictColorsPhrase + Join(colors, " and "))
    ensures forall k, i :: 0 <= k < 4 && 0 <= i < |colors| ==>
      Contains(GenerateIconPrompts(theme, style, colors)[k], colors[i])
  {
    PromptsOpenWithColors(theme, style, colors);
    PromptsCloseWithColors(theme, style, colors);
    PromptsMentionColors(theme, style, colors);
  }

  lemma PromptsOpenWithColors(theme: string, style: StylePreset, colors: seq<string>)
    requires |colors| > 0
    ensures forall k :: 0 <= k < 4 ==>
      ColorInstructionLead + Join(colors, " and ") + ". " <= GenerateIconPrompts(theme, style, colors)[k]
  {
    PromptsDifferOnlyInVariation(theme, style, colors);
    var head, tail := PromptHead(theme, colors), PromptTail(style, colors);
    var opening := ColorInstructionLead + Join(colors, " and ") + ". ";
    var closing := StrictColorsPhrase + Join(colors, " and ");
    ColoredHead(theme, colors);
    ColoredTail(style, colors);
    forall k | 0 <= k < 4
      ensures opening <= head + VariationPhrases[k] + tail
    {
      Through(head, VariationPhrases[k], tail, opening, closing);
    }
  }

  lemma PromptsCloseWithColors(theme: string, style: StylePreset, colors: seq<string>)
    requires |colors| > 0
    ensures forall k :: 0 <= k < 4 ==>
      EndsWith(GenerateIconPrompts(theme, style, colors)[k], StrictColorsPhrase + Join(colors, " and "))
  {
    PromptsDifferOnlyInVariation(theme, style, colors);
    var head, tail := PromptHead(theme, colors), PromptTail(style, colors);
    var opening := ColorInstructionLead + Join(colors, " and ") + ". ";
    var closing := StrictColorsPhrase + Join(colors, " and ");
    ColoredHead(theme, colors);
    ColoredTail(style, colors);
    forall k | 0 <= k < 4
      ensures EndsWith(head + VariationPhrases[k] + tail, closing)
    {
      Through(head, VariationPhrases[k], tail, opening, closing);
    }
  }

  lemma PromptsMentionColors(theme: string, style: StylePreset, colors: seq<string>)
    requires |colors| > 0
    ensures forall k, i :: 0 <= k < 4 && 0 <= i < |colors| ==>
      Contains(GenerateIconPrompts(theme, style, colors)[k], colors[i])
  {
    PromptsDifferOnlyInVariation(theme, style, colors);
    var head, tail := PromptHead(theme, colors), PromptTail(style, colors);
    ColoredHead(theme, colors);
    forall k, i | 0 <= k < 4 && 0 <= i < |colors|
      ensures Contains(head + VariationPhrases[k] + tail, colors[i])
    {
      ContainsThrough(head, VariationPhrases[k], tail, colors[i]);
    }
  }

  /** With an empty first colour the bubble and badge colour phrases survive
      their substitutions unchanged. */
  lemma EmptyFirstColorKeepsPhrases(s: string, colors: seq<string>)
    requires |colors| > 0 && colors[0] == []
    ensures ReplaceAll(s, ColorPatterns[2], ColorReplacements(colors)[2]) == s
    ensures ReplaceAll(s, ColorPatterns[6], ColorReplacements(colors)[6]) == s
  {
    ReplaceAllSelf(s, ColorPatterns[2]);
    ReplaceAllSelf(s, ColorPatterns[6]);
  }

  /** A modifier that contains none of the seven colour phrases is left as
      it is; colours then only add the instruction and the constraint. */
  lemma RecolorWithoutPatterns(modifier: string, colors: seq<string>)
    requires forall i :: 0 <= i < |ColorPatterns| ==> !Contains(modifier, ColorPatterns[i])
    ensures RecolorModifier(modifier, colors) == modifier
  {
    ReplaceEachAbsent(modifier, ColorPatterns, ColorReplacements(colors));
  }
}
