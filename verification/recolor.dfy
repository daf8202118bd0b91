/** The colour rewriting of the five preset modifiers, followed phrase by
    phrase: which built-in colour phrase each preset carries, what it becomes,
    and that nothing else in the modifier changes. */
module Recolor {
  import opened Text
  import opened Catalog
  import opened Prompts

  /** `s` holds none of the seven built-in colour phrases. */
  predicate NoColorPhrase(s: string) {
    forall i :: 0 <= i < |ColorPatterns| ==> !Contains(s, ColorPatterns[i])
  }

  lemma LacksE(s: string)
    requires 'e' !in s
    ensures NoColorPhrase(s)
  {
    forall i | 0 <= i < |ColorPatterns|
      ensures !Contains(s, ColorPatterns[i])
    {
      if i == 0 {
        MissingChar(s, ColorPatterns[0], 3);
      } else if i == 1 {
        MissingChar(s, ColorPatterns[1], 13);
      } else if i == 2 {
        MissingChar(s, ColorPatterns[2], 5);
      } else if i == 3 {
        MissingChar(s, ColorPatterns[3], 4);
      } else if i == 4 {
        MissingChar(s, ColorPatterns[4], 3);
      } else if i == 5 {
        MissingChar(s, ColorPatterns[5], 12);
      } else {
        MissingChar(s, ColorPatterns[6], 6);
      }
    }
  }

  lemma LacksL(s: string)
    requires 'l' !in s
    ensures NoColorPhrase(s)
  {
    forall i | 0 <= i < |ColorPatterns|
      ensures !Contains(s, ColorPatterns[i])
    {
      if i == 0 {
        MissingChar(s, ColorPatterns[0], 0);
      } else if i == 1 {
        MissingChar(s, ColorPatterns[1], 12);
      } else if i == 2 {
        MissingChar(s, ColorPatterns[2], 4);
      } else if i == 3 {
        MissingChar(s, ColorPatterns[3], 5);
      } else if i == 4 {
        MissingChar(s, ColorPatterns[4], 1);
      } else if i == 5 {
        MissingChar(s, ColorPatterns[5], 10);
      } else {
        MissingChar(s, ColorPatterns[6], 8);
      }
    }
  }

  lemma LacksBK(s: string)
    requires 'b' !in s && 'k' !in s
    ensures NoColorPhrase(s)
  {
    forall i | 0 <= i < |ColorPatterns|
      ensures !Contains(s, ColorPatterns[i])
    {
      if i == 0 {
        MissingChar(s, ColorPatterns[0], 27);
      } else if i == 1 {
        MissingChar(s, ColorPatterns[1], 3);
      } else if i == 2 {
        MissingChar(s, ColorPatterns[2], 7);
      } else if i == 3 {
        MissingChar(s, ColorPatterns[3], 19);
      } else if i == 4 {
        MissingChar(s, ColorPatterns[4], 0);
      } else if i == 5 {
        MissingChar(s, ColorPatterns[5], 9);
      } else {
        MissingChar(s, ColorPatterns[6], 3);
      }
    }
  }

  lemma LacksAP(s: string)
    requires 'a' !in s && 'p' !in s
    ensures NoColorPhrase(s)
  {
    forall i | 0 <= i < |ColorPatterns|
      ensures !Contains(s, ColorPatterns[i])
    {
      if i == 0 {
        MissingChar(s, ColorPatterns[0], 1);
      } else if i == 1 {
        MissingChar(s, ColorPatterns[1], 0);
      } else if i == 2 {
        MissingChar(s, ColorPatterns[2], 0);
      } else if i == 3 {
        MissingChar(s, ColorPatterns[3], 1);
      } else if i == 4 {
        MissingChar(s, ColorPatterns[4], 7);
      } else if i == 5 {
        MissingChar(s, ColorPatterns[5], 2);
      } else {
        MissingChar(s, ColorPatterns[6], 1);
      }
    }
  }

  lemma LacksDashN(s: string)
    requires '-' !in s && 'n' !in s
    ensures NoColorPhrase(s)
  {
    forall i | 0 <= i < |ColorPatterns|
      ensures !Contains(s, ColorPatterns[i])
    {
      if i == 0 {
        MissingChar(s, ColorPatterns[0], 4);
      } else if i == 1 {
        MissingChar(s, ColorPatterns[1], 2);
      } else if i == 2 {
        MissingChar(s, ColorPatterns[2], 6);
      } else if i == 3 {
        MissingChar(s, ColorPatterns[3], 9);
      } else if i == 4 {
        MissingChar(s, ColorPatterns[4], 26);
      } else if i == 5 {
        MissingChar(s, ColorPatterns[5], 3);
      } else {
        MissingChar(s, ColorPatterns[6], 14);
      }
    }
  }

  lemma LacksDashT(s: string)
    requires '-' !in s && 't' !in s
    ensures NoColorPhrase(s)
  {
    forall i | 0 <= i < |ColorPatterns|
      ensures !Contains(s, ColorPatterns[i])
    {
      if i == 0 {
        MissingChar(s, ColorPatterns[0], 16);
      } else if i == 1 {
        MissingChar(s, ColorPatterns[1], 5);
      } else if i == 2 {
        MissingChar(s, ColorPatterns[2], 6);
      } else if i == 3 {
        MissingChar(s, ColorPatterns[3], 3);
      } else if i == 4 {
        MissingChar(s, ColorPatterns[4], 9);
      } else if i == 5 {
        MissingChar(s, ColorPatterns[5], 21);
      } else {
        MissingChar(s, ColorPatterns[6], 5);
      }
    }
  }

  lemma LacksGP(s: string)
    requires 'g' !in s && 'p' !in s
    ensures NoColorPhrase(s)
  {
    forall i | 0 <= i < |ColorPatterns|
      ensures !Contains(s, ColorPatterns[i])
    {
      if i == 0 {
        MissingChar(s, ColorPatterns[0], 9);
      } else if i == 1 {
        MissingChar(s, ColorPatterns[1], 0);
      } else if i == 2 {
        MissingChar(s, ColorPatterns[2], 0);
      } else if i == 3 {
        MissingChar(s, ColorPatterns[3], 0);
      } else if i == 4 {
        MissingChar(s, ColorPatterns[4], 37);
      } else if i == 5 {
        MissingChar(s, ColorPatterns[5], 14);
      } else {
        MissingChar(s, ColorPatterns[6], 10);
      }
    }
  }

  lemma LacksDashDK(s: string)
    requires '-' !in s && 'd' !in s && 'k' !in s
    ensures NoColorPhrase(s)
  {
    forall i | 0 <= i < |ColorPatterns|
      ensures !Contains(s, ColorPatterns[i])
    {
      if i == 0 {
        MissingChar(s, ColorPatterns[0], 5);
      } else if i == 1 {
        MissingChar(s, ColorPatterns[1], 3);
      } else if i == 2 {
        MissingChar(s, ColorPatterns[2], 6);
      } else if i == 3 {
        MissingChar(s, ColorPatterns[3], 14);
      } else if i == 4 {
        MissingChar(s, ColorPatterns[4], 30);
      } else if i == 5 {
        MissingChar(s, ColorPatterns[5], 7);
      } else {
        MissingChar(s, ColorPatterns[6], 0);
      }
    }
  }

  /** Without a 'p' a text holds none of the first five phrases. */
  lemma LacksP(s: string)
    requires 'p' !in s
    ensures forall i :: 0 <= i < 5 ==> !Contains(s, ColorPatterns[i])
  {
    forall i | 0 <= i < 5
      ensures !Contains(s, ColorPatterns[i])
    {
      if i == 0 {
        MissingChar(s, ColorPatterns[0], 9);
      } else if i == 1 {
        MissingChar(s, ColorPatterns[1], 0);
      } else if i == 2 {
        MissingChar(s, ColorPatterns[2], 0);
      } else if i == 3 {
        MissingChar(s, ColorPatterns[3], 0);
      } else {
        MissingChar(s, ColorPatterns[4], 5);
      }
    }
  }

  /** A text holding the plastic-material phrase holds its second half. */
  lemma PlasticNeedsCyan(s: string)
    ensures Contains(s, ColorPatterns[4]) ==> Contains(s, ColorPatterns[5])
  {
    if Contains(s, ColorPatterns[4]) {
      ContainsSuffixOf(s, "blue plastic material" + ", ", ColorPatterns[5]);
    }
  }

  /** Every colour phrase but the plastic-material one stays inside a single
      ", "-separated item. */
  lemma Separable(i: nat)
    requires i < |ColorPatterns| && i != 4
    ensures SeparatesFor(", ", ColorPatterns[i])
  {
    assert ", "[1..] == " ";
    if i == 0 {
      NoComma("lavender purple to ", "soft pink to cream yellow");
    } else if i == 1 {
      NoComma("pink to purple to yellow", "");
    } else if i == 2 {
      NoComma("purple-blue", "");
    } else if i == 3 {
      NoComma("pastel mint and pink", "");
    } else if i == 5 {
      NoComma("cyan and blue gradient", "");
    } else {
      NoComma("dark teal green", "");
    }
  }

  /** The comma check, one literal piece at a time. */
  lemma NoComma(a: string, b: string)
    requires ',' !in a && ',' !in b
    ensures ',' !in a + b
  {
  }

  /** A joined modifier whose items lack the phrase `i` lacks it too; for
      the plastic-material phrase, which spans a ", ", the items are asked
      to lack its second half. */
  lemma JoinedLacks(xs: seq<string>, i: nat)
    requires i < |ColorPatterns|
    requires i != 4 ==> forall k :: 0 <= k < |xs| ==> !Contains(xs[k], ColorPatterns[i])
    requires i == 4 ==> forall k :: 0 <= k < |xs| ==> !Contains(xs[k], ColorPatterns[5])
    ensures !Contains(Join(xs, ", "), ColorPatterns[i])
  {
    if i == 4 {
      Separable(5);
      JoinLacks(xs, ", ", ColorPatterns[5]);
      PlasticNeedsCyan(Join(xs, ", "));
    } else {
      Separable(i);
      JoinLacks(xs, ", ", ColorPatterns[i]);
    }
  }

  /** No colour phrase is empty. */
  lemma PatternsNonEmpty()
    ensures forall k :: 0 <= k < |ColorPatterns| ==> ColorPatterns[k] != []
  {
  }

  /** Recolouring a text in which only the colour step `h` finds its
      phrase gives that one step's result. */
  lemma RecolorThrough(s: string, colors: seq<string>, h: nat, t: string)
    requires h < |ColorPatterns|
    requires forall i :: 0 <= i < h ==> !Contains(s, ColorPatterns[i])
    requires ReplaceAll(s, ColorPatterns[h], ColorReplacements(colors)[h]) == t
    requires forall i :: h < i < |ColorPatterns| ==> !Contains(t, ColorPatterns[i])
    ensures RecolorModifier(s, colors) == t
  {
    PatternsNonEmpty();
    ReplaceEachThrough(s, ColorPatterns, ColorReplacements(colors), h, t);
  }

  /** A chain of global replacements `pats[i] -> reps[i]`, from step `i`
      on. */
  function StepsFrom(s: string, pats: seq<string>, reps: seq<string>, i: nat): string
    requires |pats| == |reps| && i <= |pats|
    requires forall j :: 0 <= j < |pats| ==> pats[j] != []
    decreases |pats| - i
  {
    if i == |pats| then s
    else StepsFrom(ReplaceAll(s, pats[i], reps[i]), pats, reps, i + 1)
  }

  /** `ReplaceEach` on the tail of the lists is the chain from that step. */
  lemma {:induction false} ReplaceEachSteps(s: string, pats: seq<string>, reps: seq<string>, i: nat)
    requires |pats| == |reps| && i <= |pats|
    requires forall j :: 0 <= j < |pats| ==> pats[j] != []
    ensures ReplaceEach(s, pats[i..], reps[i..]) == StepsFrom(s, pats, reps, i)
    decreases |pats| - i
  {
    if i < |pats| {
      assert pats[i..][1..] == pats[i + 1..];
      assert reps[i..][1..] == reps[i + 1..];
      ReplaceEachSteps(ReplaceAll(s, pats[i], reps[i]), pats, reps, i + 1);
    }
  }

  /** A step whose pattern the text does not hold leaves it as it is. */
  lemma SkipStep(s: string, pats: seq<string>, reps: seq<string>, i: nat)
    requires |pats| == |reps| && i < |pats|
    requires forall j :: 0 <= j < |pats| ==> pats[j] != []
    requires !Contains(s, pats[i])
    ensures StepsFrom(s, pats, reps, i) == StepsFrom(s, pats, reps, i + 1)
  {
    ReplaceAllAbsent(s, pats[i], reps[i]);
  }

  /** The colour rewriting of `RecolorModifier` as its chain of seven
      steps. */
  lemma RecolorSteps(s: string, colors: seq<string>)
    ensures RecolorModifier(s, colors) == StepsFrom(s, ColorPatterns, ColorReplacements(colors), 0)
  {
    var reps := ColorReplacements(colors);
    assert ColorPatterns[0..] == ColorPatterns && reps[0..] == reps;
    ReplaceEachSteps(s, ColorPatterns, reps, 0);
  }

  /** The first colour, when it is used, is part of the joined colours: a
      phrase that neither the joined colours nor the fallback hold is not in
      `FirstOr(colors, fallback)` either. */
  lemma FirstColorLacks(colors: seq<string>, fallback: string, t: string)
    requires !Contains(ColorString(colors), t) && !Contains(fallback, t)
    ensures !Contains(FirstOr(colors, fallback), t)
  {
    if |colors| > 0 && colors[0] != "" {
      JoinContainsEach(colors, " and ");
      ContainsWithin(ColorString(colors), colors[0], t);
    }
  }

  /** Steps whose patterns the text does not hold leave it as it is. */
  lemma {:induction false} SkipSteps(s: string, pats: seq<string>, reps: seq<string>, i: nat, n: nat)
    requires |pats| == |reps| && i <= n <= |pats|
    requires forall j :: 0 <= j < |pats| ==> pats[j] != []
    requires forall k :: i <= k < n ==> !Contains(s, pats[k])
    ensures StepsFrom(s, pats, reps, i) == StepsFrom(s, pats, reps, n)
    decreases n - i
  {
    if i < n {
      SkipStep(s, pats, reps, i);
      SkipSteps(s, pats, reps, i + 1, n);
    }
  }

  /** Colour steps whose phrases the text does not hold leave it as it
      is. */
  lemma SkipColorSteps(s: string, colors: seq<string>, i: nat, n: nat)
    requires i <= n <= |ColorPatterns|
    requires forall k :: i <= k < n ==> !Contains(s, ColorPatterns[k])
    ensures StepsFrom(s, ColorPatterns, ColorReplacements(colors), i)
         == StepsFrom(s, ColorPatterns, ColorReplacements(colors), n)
  {
    SkipSteps(s, ColorPatterns, ColorReplacements(colors), i, n);
  }

  /** A modifier whose one coloured item is `x + ColorPatterns[h] + y`: when
      the other items hold no colour phrase, the coloured item none before
      step `h`, and its rewritten form none after, recolouring rewrites that
      item alone. */
  lemma RecolorAt(xs: seq<string>, colors: seq<string>, h: nat, j: nat, x: string, y: string)
    requires h < |ColorPatterns| && h != 4 && h != 5 && j < |xs|
    requires xs[j] == x + ColorPatterns[h] + y
    requires !Contains(x, ColorPatterns[h]) && NoOverhangLeft(x, ColorPatterns[h])
    requires !Contains(y, ColorPatterns[h])
    requires forall k :: 0 <= k < |xs| && k != j ==> NoColorPhrase(xs[k])
    requires forall i :: 0 <= i < h ==> !Contains(xs[j], ColorPatterns[i])
    requires forall i :: h < i < |ColorPatterns| ==>
      !Contains(x + ColorReplacements(colors)[h] + y, ColorPatterns[i])
    ensures RecolorModifier(Join(xs, ", "), colors)
         == Join(xs[j := x + ColorReplacements(colors)[h] + y], ", ")
  {
    var cp, cr := ColorPatterns, ColorReplacements(colors);
    var m := Join(xs, ", ");
    var ys := xs[j := x + cr[h] + y];
    RecolorSteps(m, colors);
    forall i | 0 <= i < h
      ensures !Contains(m, cp[i])
    {
      if i == 4 {
        assert !Contains(xs[j], cp[5]);
      }
      JoinedLacks(xs, i);
    }
    SkipSteps(m, cp, cr, 0, h);
    Separable(h);
    JoinReplaceAt(xs, ", ", cp[h], cr[h], j, x, y);
    forall i | h < i < |cp|
      ensures !Contains(Join(ys, ", "), cp[i])
    {
      JoinedLacks(ys, i);
    }
    SkipSteps(Join(ys, ", "), cp, cr, h + 1, |cp|);
  }

  /** The plastic-material phrase is its first half, ", ", and its second
      half. */
  lemma PlasticHalves()
    ensures ColorPatterns[4] == "blue plastic material" + ", " + ColorPatterns[5]
  {
  }

  /** The text before the plastic-material phrase, items up to `j - 1` and
      `x`, neither holds it nor ends in a beginning of it; the text after,
      from item `j + 2` on, does not hold it. */
  lemma PlasticSides(xs: seq<string>, j: nat, x: string)
    requires 0 < j && j + 2 < |xs|
    requires ColorPatterns[4][0] !in x && !Contains(ColorPatterns[4], x)
    requires !Contains(x, ColorPatterns[5])
    requires forall k :: 0 <= k < |xs| && k != j && k != j + 1 ==> NoColorPhrase(xs[k])
    ensures !Contains(Join(xs[..j], ", ") + ", " + x, ColorPatterns[4])
    ensures NoOverhangLeft(Join(xs[..j], ", ") + ", " + x, ColorPatterns[4])
    ensures !Contains(", " + Join(xs[j + 2..], ", "), ColorPatterns[4])
  {
    var cp5 := ColorPatterns[5];
    var front, back := xs[..j] + [x], xs[j + 2..];
    Separable(5);
    JoinConcat(xs[..j], [x], ", ");
    forall k | 0 <= k < |front|
      ensures !Contains(front[k], cp5)
    {
      if k < j {
        assert front[k] == xs[k] && NoColorPhrase(xs[k]);
      }
    }
    JoinLacks(front, ", ", cp5);
    PlasticNeedsCyan(Join(xs[..j], ", ") + ", " + x);
    OverhangLeftBy(Join(xs[..j], ", ") + ", ", x, ColorPatterns[4]);
    forall k | 0 <= k < |back|
      ensures !Contains(back[k], cp5)
    {
      assert back[k] == xs[k + j + 2] && NoColorPhrase(xs[k + j + 2]);
    }
    JoinLacks(back, ", ", cp5);
    assert cp5[0] == 'c';
    ContainsSkip(", ", Join(back, ", "), cp5);
    PlasticNeedsCyan(", " + Join(back, ", "));
  }

  /** The plastic-material step alone: its phrase occurs once, across the
      ", " between items `j` and `j + 1`, which merge around the
      replacement. */
  lemma PlasticStep(xs: seq<string>, j: nat, x: string, rep: string)
    requires 0 < j && j + 2 < |xs|
    requires xs[j] + ", " + xs[j + 1] == x + ColorPatterns[4]
    requires ColorPatterns[4][0] !in x && !Contains(ColorPatterns[4], x)
    requires !Contains(x, ColorPatterns[5])
    requires forall k :: 0 <= k < |xs| && k != j && k != j + 1 ==> NoColorPhrase(xs[k])
    ensures ReplaceAll(Join(xs, ", "), ColorPatterns[4], rep)
         == Join(xs[..j] + [x + rep] + xs[j + 2..], ", ")
  {
    PlasticSides(xs, j, x);
    JoinReplaceAcross(xs, ", ", j, x, ColorPatterns[4], rep);
  }

  /** Before the plastic-material step, the modifier holds none of the
      earlier phrases. */
  lemma PlasticBefore(xs: seq<string>, j: nat)
    requires j + 1 < |xs|
    requires forall k :: 0 <= k < |xs| && k != j && k != j + 1 ==> NoColorPhrase(xs[k])
    requires forall i :: 0 <= i < 4 ==> !Contains(xs[j], ColorPatterns[i]) && !Contains(xs[j + 1], ColorPatterns[i])
    ensures forall i :: 0 <= i < 4 ==> !Contains(Join(xs, ", "), ColorPatterns[i])
  {
    forall i | 0 <= i < 4
      ensures !Contains(Join(xs, ", "), ColorPatterns[i])
    {
      ItemsLack(xs, j, i);
      JoinedLacks(xs, i);
    }
  }

  lemma ItemsLack(xs: seq<string>, j: nat, i: nat)
    requires j + 1 < |xs| && i < |ColorPatterns|
    requires forall k :: 0 <= k < |xs| && k != j && k != j + 1 ==> NoColorPhrase(xs[k])
    requires !Contains(xs[j], ColorPatterns[i]) && !Contains(xs[j + 1], ColorPatterns[i])
    ensures forall k :: 0 <= k < |xs| ==> !Contains(xs[k], ColorPatterns[i])
  {
  }


  /** After the plastic-material step, the merged modifier holds none of
      the later phrases. */
  lemma PlasticAfter(xs: seq<string>, colors: seq<string>, j: nat, x: string)
    requires 0 < j && j + 2 < |xs|
    requires forall k :: 0 <= k < |xs| && k != j && k != j + 1 ==> NoColorPhrase(xs[k])
    requires forall i :: 4 < i < |ColorPatterns| ==>
      !Contains(x + ColorReplacements(colors)[4], ColorPatterns[i])
    ensures forall i :: 4 < i < |ColorPatterns| ==>
      !Contains(Join(xs[..j] + [x + ColorReplacements(colors)[4]] + xs[j + 2..], ", "), ColorPatterns[i])
  {
    var ys := xs[..j] + [x + ColorReplacements(colors)[4]] + xs[j + 2..];
    forall k | 0 <= k < |ys| && k != j
      ensures NoColorPhrase(ys[k])
    {
      if k < j {
        assert ys[k] == xs[k];
      } else {
        assert ys[k] == xs[k + 1];
      }
    }
    forall i | 4 < i < |ColorPatterns|
      ensures !Contains(Join(ys, ", "), ColorPatterns[i])
    {
      assert ys[j] == x + ColorReplacements(colors)[4];
      JoinedLacks(ys, i);
    }
  }

  /** A modifier whose items `j` and `j + 1`, with the ", " between them,
      are `x` followed by the plastic-material phrase: no earlier colour
      step finds anything, the plastic-material step merges the two items
      into `x` followed by its replacement, and no later step finds anything
      in the result. */
  lemma PlasticFacts(xs: seq<string>, colors: seq<string>, j: nat, x: string)
    requires 0 < j && j + 2 < |xs|
    requires xs[j] + ", " + xs[j + 1] == x + ColorPatterns[4]
    requires ColorPatterns[4][0] !in x && !Contains(ColorPatterns[4], x)
    requires !Contains(x, ColorPatterns[5])
    requires forall k :: 0 <= k < |xs| && k != j && k != j + 1 ==> NoColorPhrase(xs[k])
    requires forall i :: 0 <= i < 4 ==> !Contains(xs[j], ColorPatterns[i]) && !Contains(xs[j + 1], ColorPatterns[i])
    requires forall i :: 4 < i < |ColorPatterns| ==>
      !Contains(x + ColorReplacements(colors)[4], ColorPatterns[i])
    ensures forall i :: 0 <= i < 4 ==> !Contains(Join(xs, ", "), ColorPatterns[i])
    ensures ReplaceAll(Join(xs, ", "), ColorPatterns[4], ColorReplacements(colors)[4])
         == Join(xs[..j] + [x + ColorReplacements(colors)[4]] + xs[j + 2..], ", ")
    ensures forall i :: 4 < i < |ColorPatterns| ==>
      !Contains(Join(xs[..j] + [x + ColorReplacements(colors)[4]] + xs[j + 2..], ", "), ColorPatterns[i])
  {
    PlasticBefore(xs, j);
    PlasticStep(xs, j, x, ColorReplacements(colors)[4]);
    PlasticAfter(xs, colors, j, x);
  }


  /** Gradient Line Art: the gradient "lavender purple to soft pink to cream
      yellow" becomes the joined colours; every other item of the modifier
      is kept. */
  lemma RecolorGradientLineArt(colors: seq<string>)
    requires NoColorPhrase(ColorString(colors))
    ensures RecolorModifier(GradientLineArt.promptModifier, colors)
         == Join(GradientLineArtPhrases[1 := "soft pastel gradient fill from " + ColorString(colors)], ", ")
  {
    GradientLineArtPlain();
    GradientLineArtHit();
    GradientLineArtAfter(colors);
    var x := "soft pastel gradient fill from ";
    assert x + ColorPatterns[0] + "" == x + ColorPatterns[0];
    assert x + ColorReplacements(colors)[0] + "" == x + ColorString(colors);
    RecolorAt(GradientLineArtPhrases, colors, 0, 1, x, "");
  }

  /** Playful Bubble: the bubble colour "purple-blue" becomes the first
      colour, or stays when there is no usable first colour; every other
      item of the modifier is kept. */
  lemma RecolorPlayfulBubble(colors: seq<string>)
    requires NoColorPhrase(ColorString(colors))
    ensures RecolorModifier(PlayfulBubble.promptModifier, colors)
         == Join(PlayfulBubblePhrases[1 := "soft " + FirstOr(colors, "purple-blue") + " circular bubble background"], ", ")
  {
    PlayfulBubblePlain();
    PlayfulBubbleBefore();
    PlayfulBubbleHit();
    PlayfulBubbleAfter(colors);
    RecolorAt(PlayfulBubblePhrases, colors, 2, 1, "soft ", " circular bubble background");
  }

  /** Whimsical Clouds: "pastel mint and pink" becomes the joined colours;
      every other item of the modifier is kept. */
  lemma RecolorWhimsicalClouds(colors: seq<string>)
    requires NoColorPhrase(ColorString(colors))
    ensures RecolorModifier(WhimsicalClouds.promptModifier, colors)
         == Join(WhimsicalCloudsPhrases[1 := "soft " + ColorString(colors) + " colors"], ", ")
  {
    WhimsicalCloudsPlain();
    WhimsicalCloudsBefore();
    WhimsicalCloudsHit();
    WhimsicalCloudsAfter(colors);
    RecolorAt(WhimsicalCloudsPhrases, colors, 3, 1, "soft ", " colors");
  }

  /** Glossy 3D: the plastic-material phrase, which spans the items "shiny
      blue plastic material" and "cyan and blue gradient", becomes "plastic
      material in " and the joined colours, merging the two items into one;
      every other item of the modifier is kept. */
  lemma RecolorGlossy3D(colors: seq<string>)
    requires NoColorPhrase(ColorString(colors))
    ensures RecolorModifier(Glossy3D.promptModifier, colors)
         == Join(Glossy3DPhrases[..1] + ["shiny plastic material in " + ColorString(colors)] + Glossy3DPhrases[3..], ", ")
  {
    var merged := Glossy3DPhrases[..1] + ["shiny " + ColorReplacements(colors)[4]] + Glossy3DPhrases[3..];
    Glossy3DPlain();
    Glossy3DBefore();
    Glossy3DHit();
    Glossy3DAfter(colors);
    PlasticFacts(Glossy3DPhrases, colors, 1, "shiny ");
    RecolorThrough(Join(Glossy3DPhrases, ", "), colors, 4, Join(merged, ", "));
    Glossy3DMerged(ColorString(colors));
  }

  /** Circle Badge: the badge colour "dark teal green" becomes the first
      colour, or stays when there is no usable first colour; every other
      item of the modifier is kept. */
  lemma RecolorCircleBadge(colors: seq<string>)
    requires NoColorPhrase(ColorString(colors))
    ensures RecolorModifier(CircleBadge.promptModifier, colors)
         == Join(CircleBadgePhrases[1 := "white silhouette on " + FirstOr(colors, "dark teal green") + " circular background"], ", ")
  {
    CircleBadgePlain();
    CircleBadgeBefore();
    CircleBadgeHit();
    RecolorAt(CircleBadgePhrases, colors, 6, 1, "white silhouette on ", " circular background");
  }

  /** The items of the GradientLineArt modifier other than item 1 hold no colour
      phrase. */
  lemma GradientLineArtPlain()
    ensures forall k :: 0 <= k < |GradientLineArtPhrases| && k != 1 ==> NoColorPhrase(GradientLineArtPhrases[k])
  {
    GradientLineArtItem0();
    GradientLineArtItem2();
    GradientLineArtItem3();
    GradientLineArtItem4();
    GradientLineArtItem5();
    GradientLineArtItem6();
    GradientLineArtItem7();
    GradientLineArtItem8();
    GradientLineArtItem9();
    GradientLineArtItem10();
    GradientLineArtItem11();
  }

  lemma GradientLineArtItem0()
    ensures NoColorPhrase(GradientLineArtPhrases[0])
  {
    LacksBK(GradientLineArtPhrases[0]);
  }

  lemma GradientLineArtItem2()
    ensures NoColorPhrase(GradientLineArtPhrases[2])
  {
    LacksP(GradientLineArtPhrases[2]);
    MissingChar(GradientLineArtPhrases[2], ColorPatterns[5], 0);
    GradientLineArtItem2Phrase6();
  }

  lemma GradientLineArtItem2Phrase6()
    ensures !Contains(GradientLineArtPhrases[2], ColorPatterns[6])
  {
    ShortLacks(GradientLineArtPhrases[2][..13], ColorPatterns[6]);
    MissingChar(GradientLineArtPhrases[2][14..], ColorPatterns[6], 0);
    SplitLacksAt(GradientLineArtPhrases[2], 13, ColorPatterns[6]);
  }

  lemma GradientLineArtItem3()
    ensures NoColorPhrase(GradientLineArtPhrases[3])
  {
    LacksBK(GradientLineArtPhrases[3]);
  }

  lemma GradientLineArtItem4()
    ensures NoColorPhrase(GradientLineArtPhrases[4])
  {
    LacksE(GradientLineArtPhrases[4]);
  }

  lemma GradientLineArtItem5()
    ensures NoColorPhrase(GradientLineArtPhrases[5])
  {
    LacksP(GradientLineArtPhrases[5]);
    GradientLineArtItem5Phrase5();
    GradientLineArtItem5Phrase6();
  }

  lemma GradientLineArtItem5Phrase5()
    ensures !Contains(GradientLineArtPhrases[5], ColorPatterns[5])
  {
    ShortLacks(GradientLineArtPhrases[5][..9], ColorPatterns[5]);
    MissingChar(GradientLineArtPhrases[5][10..], ColorPatterns[5], 18);
    SplitLacksAt(GradientLineArtPhrases[5], 9, ColorPatterns[5]);
  }

  lemma GradientLineArtItem5Phrase6()
    ensures !Contains(GradientLineArtPhrases[5], ColorPatterns[6])
  {
    MissingChar(GradientLineArtPhrases[5][..35], ColorPatterns[6], 3);
    ShortLacks(GradientLineArtPhrases[5][36..], ColorPatterns[6]);
    SplitLacksAt(GradientLineArtPhrases[5], 35, ColorPatterns[6]);
  }

  lemma GradientLineArtItem6()
    ensures NoColorPhrase(GradientLineArtPhrases[6])
  {
    LacksAP(GradientLineArtPhrases[6]);
  }

  lemma GradientLineArtItem7()
    ensures NoColorPhrase(GradientLineArtPhrases[7])
  {
    LacksBK(GradientLineArtPhrases[7]);
  }

  lemma GradientLineArtItem8()
    ensures NoColorPhrase(GradientLineArtPhrases[8])
  {
    LacksE(GradientLineArtPhrases[8]);
  }

  lemma GradientLineArtItem9()
    ensures NoColorPhrase(GradientLineArtPhrases[9])
  {
    LacksL(GradientLineArtPhrases[9]);
  }

  lemma GradientLineArtItem10()
    ensures NoColorPhrase(GradientLineArtPhrases[10])
  {
    LacksBK(GradientLineArtPhrases[10]);
  }

  lemma GradientLineArtItem11()
    ensures NoColorPhrase(GradientLineArtPhrases[11])
  {
    LacksBK(GradientLineArtPhrases[11]);
  }

  lemma GradientLineArtHit()
    ensures GradientLineArtPhrases[1] == "soft pastel gradient fill from " + ColorPatterns[0]
    ensures !Contains("soft pastel gradient fill from ", ColorPatterns[0]) && NoOverhangLeft("soft pastel gradient fill from ", ColorPatterns[0])
    ensures !Contains([], ColorPatterns[0])
  {
    ShortLacks("soft pastel gradient fill from ", ColorPatterns[0]);
    assert ColorPatterns[0][..3] == "lav" && ColorPatterns[0][..2] == "la";
    MissingChar("soft pastel gradient fill from ", "lav", 2);
    NoOverhangLeftBefore("soft pastel gradient fill from ", ColorPatterns[0], 3);
    ShortLacks([], ColorPatterns[0]);
  }

  lemma GradientLineArtAfter(colors: seq<string>)
    requires NoColorPhrase(ColorString(colors))
    ensures forall i :: 0 < i < |ColorPatterns| ==>
      !Contains("soft pastel gradient fill from " + ColorReplacements(colors)[0], ColorPatterns[i])
  {
    GradientLineArtAfter1(colors);
    GradientLineArtAfter2(colors);
    GradientLineArtAfter3(colors);
    GradientLineArtAfter4(colors);
    GradientLineArtAfter5(colors);
    GradientLineArtAfter6(colors);
  }

  lemma GradientLineArtAfter1(colors: seq<string>)
    requires NoColorPhrase(ColorString(colors))
    ensures !Contains("soft pastel gradient fill from " + ColorReplacements(colors)[0], ColorPatterns[1])
  {
    GradientLineArtAfterParts1();
    assert !Contains(ColorString(colors), ColorPatterns[1]);
    NoCrossingLeft("soft pastel gradient fill from ", ColorString(colors), ColorPatterns[1]);
  }

  lemma GradientLineArtAfterParts1()
    ensures !Contains("soft pastel gradient fill from ", ColorPatterns[1]) && NoOverhangLeft("soft pastel gradient fill from ", ColorPatterns[1])
  {
    var t := ColorPatterns[1];
    MissingChar("soft pastel gradient fill from ", t, 3);
    assert "soft pastel gradient fill from "[29..] == "m " && t[0] == 'p';
    MissingChar(t, "m ", 0);
    NoOverhangLeftFrom("soft pastel gradient fill from ", 29, t);
  }

  lemma GradientLineArtAfter2(colors: seq<string>)
    requires NoColorPhrase(ColorString(colors))
    ensures !Contains("soft pastel gradient fill from " + ColorReplacements(colors)[0], ColorPatterns[2])
  {
    GradientLineArtAfterParts2();
    assert !Contains(ColorString(colors), ColorPatterns[2]);
    NoCrossingLeft("soft pastel gradient fill from ", ColorString(colors), ColorPatterns[2]);
  }

  lemma GradientLineArtAfterParts2()
    ensures !Contains("soft pastel gradient fill from ", ColorPatterns[2]) && NoOverhangLeft("soft pastel gradient fill from ", ColorPatterns[2])
  {
    var t := ColorPatterns[2];
    MissingChar("soft pastel gradient fill from ", t, 1);
    assert "soft pastel gradient fill from "[30..] == " " && t[0] == 'p';
    MissingChar(t, " ", 0);
    NoOverhangLeftFrom("soft pastel gradient fill from ", 30, t);
  }

  lemma GradientLineArtAfter3(colors: seq<string>)
    requires NoColorPhrase(ColorString(colors))
    ensures !Contains("soft pastel gradient fill from " + ColorReplacements(colors)[0], ColorPatterns[3])
  {
    GradientLineArtAfterParts3();
    assert !Contains(ColorString(colors), ColorPatterns[3]);
    NoCrossingLeft("soft pastel gradient fill from ", ColorString(colors), ColorPatterns[3]);
  }

  lemma GradientLineArtAfterParts3()
    ensures !Contains("soft pastel gradient fill from ", ColorPatterns[3]) && NoOverhangLeft("soft pastel gradient fill from ", ColorPatterns[3])
  {
    var t := ColorPatterns[3];
    MissingChar("soft pastel gradient fill from ", t, 19);
    assert "soft pastel gradient fill from "[28..] == "om " && t[0] == 'p';
    MissingChar(t, "om ", 0);
    NoOverhangLeftFrom("soft pastel gradient fill from ", 28, t);
  }

  lemma GradientLineArtAfter4(colors: seq<string>)
    requires NoColorPhrase(ColorString(colors))
    ensures !Contains("soft pastel gradient fill from " + ColorReplacements(colors)[0], ColorPatterns[4])
  {
    GradientLineArtAfterParts4();
    assert !Contains(ColorString(colors), ColorPatterns[4]);
    NoCrossingLeft("soft pastel gradient fill from ", ColorString(colors), ColorPatterns[4]);
  }

  lemma GradientLineArtAfterParts4()
    ensures !Contains("soft pastel gradient fill from ", ColorPatterns[4]) && NoOverhangLeft("soft pastel gradient fill from ", ColorPatterns[4])
  {
    var t := ColorPatterns[4];
    FirstCharOutside("soft pastel gradient fill from ", t);
  }

  lemma GradientLineArtAfter5(colors: seq<string>)
    requires NoColorPhrase(ColorString(colors))
    ensures !Contains("soft pastel gradient fill from " + ColorReplacements(colors)[0], ColorPatterns[5])
  {
    GradientLineArtAfterParts5();
    assert !Contains(ColorString(colors), ColorPatterns[5]);
    NoCrossingLeft("soft pastel gradient fill from ", ColorString(colors), ColorPatterns[5]);
  }

  lemma GradientLineArtAfterParts5()
    ensures !Contains("soft pastel gradient fill from ", ColorPatterns[5]) && NoOverhangLeft("soft pastel gradient fill from ", ColorPatterns[5])
  {
    var t := ColorPatterns[5];
    FirstCharOutside("soft pastel gradient fill from ", t);
  }

  lemma GradientLineArtAfter6(colors: seq<string>)
    requires NoColorPhrase(ColorString(colors))
    ensures !Contains("soft pastel gradient fill from " + ColorReplacements(colors)[0], ColorPatterns[6])
  {
    GradientLineArtAfterParts6();
    assert !Contains(ColorString(colors), ColorPatterns[6]);
    NoCrossingLeft("soft pastel gradient fill from ", ColorString(colors), ColorPatterns[6]);
  }

  lemma GradientLineArtAfterParts6()
    ensures !Contains("soft pastel gradient fill from ", ColorPatterns[6]) && NoOverhangLeft("soft pastel gradient fill from ", ColorPatterns[6])
  {
    var t := ColorPatterns[6];
    MissingChar("soft pastel gradient fill from ", t, 3);
    assert "soft pastel gradient fill from "[29..] == "m " && t[0] == 'd';
    MissingChar(t, "m ", 0);
    NoOverhangLeftFrom("soft pastel gradient fill from ", 29, t);
  }
  /** The items of the PlayfulBubble modifier other than item 1 hold no colour
      phrase. */
  lemma PlayfulBubblePlain()
    ensures forall k :: 0 <= k < |PlayfulBubblePhrases| && k != 1 ==> NoColorPhrase(PlayfulBubblePhrases[k])
  {
    PlayfulBubbleItem0();
    PlayfulBubbleItem2();
    PlayfulBubbleItem3();
    PlayfulBubbleItem4();
    PlayfulBubbleItem5();
    PlayfulBubbleItem6();
    PlayfulBubbleItem7();
    PlayfulBubbleItem8();
  }

  lemma PlayfulBubbleItem0()
    ensures NoColorPhrase(PlayfulBubblePhrases[0])
  {
    LacksBK(PlayfulBubblePhrases[0]);
  }

  lemma PlayfulBubbleItem2()
    ensures NoColorPhrase(PlayfulBubblePhrases[2])
  {
    LacksBK(PlayfulBubblePhrases[2]);
  }

  lemma PlayfulBubbleItem3()
    ensures NoColorPhrase(PlayfulBubblePhrases[3])
  {
    LacksBK(PlayfulBubblePhrases[3]);
  }

  lemma PlayfulBubbleItem4()
    ensures NoColorPhrase(PlayfulBubblePhrases[4])
  {
    LacksE(PlayfulBubblePhrases[4]);
  }

  lemma PlayfulBubbleItem5()
    ensures NoColorPhrase(PlayfulBubblePhrases[5])
  {
    LacksBK(PlayfulBubblePhrases[5]);
  }

  lemma PlayfulBubbleItem6()
    ensures NoColorPhrase(PlayfulBubblePhrases[6])
  {
    LacksE(PlayfulBubblePhrases[6]);
  }

  lemma PlayfulBubbleItem7()
    ensures NoColorPhrase(PlayfulBubblePhrases[7])
  {
    LacksL(PlayfulBubblePhrases[7]);
  }

  lemma PlayfulBubbleItem8()
    ensures NoColorPhrase(PlayfulBubblePhrases[8])
  {
    LacksBK(PlayfulBubblePhrases[8]);
  }

  lemma PlayfulBubbleBefore()
    ensures forall i :: 0 <= i < 2 ==> !Contains(PlayfulBubblePhrases[1], ColorPatterns[i])
  {
    forall i | 0 <= i < 2
      ensures !Contains(PlayfulBubblePhrases[1], ColorPatterns[i])
    {
      if i == 0 {
        ShortLacks(PlayfulBubblePhrases[1], ColorPatterns[0]);
      } else {
        MissingChar(PlayfulBubblePhrases[1], ColorPatterns[1], 18);
      }
    }
  }

  lemma PlayfulBubbleHit()
    ensures PlayfulBubblePhrases[1] == "soft " + ColorPatterns[2] + " circular bubble background"
    ensures !Contains("soft ", ColorPatterns[2]) && NoOverhangLeft("soft ", ColorPatterns[2])
    ensures !Contains(" circular bubble background", ColorPatterns[2])
  {
    FirstCharOutside("soft ", ColorPatterns[2]);
    MissingChar(" circular bubble background", ColorPatterns[2], 0);
  }

  lemma PlayfulBubbleAfter(colors: seq<string>)
    requires NoColorPhrase(ColorString(colors))
    ensures forall i :: 2 < i < |ColorPatterns| ==>
      !Contains("soft " + ColorReplacements(colors)[2] + " circular bubble background", ColorPatterns[i])
  {
    PlayfulBubbleAfter3(colors);
    PlayfulBubbleAfter4(colors);
    PlayfulBubbleAfter5(colors);
    PlayfulBubbleAfter6(colors);
  }

  lemma PlayfulBubbleAfter3(colors: seq<string>)
    requires NoColorPhrase(ColorString(colors))
    ensures !Contains("soft " + ColorReplacements(colors)[2] + " circular bubble background", ColorPatterns[3])
  {
    PlayfulBubbleAfterParts3();
    FirstColorLacks(colors, "purple-blue", ColorPatterns[3]);
    NoStraddle("soft ", FirstOr(colors, "purple-blue"), " circular bubble background", ColorPatterns[3]);
  }

  lemma PlayfulBubbleAfterParts3()
    ensures !Contains("soft ", ColorPatterns[3]) && NoOverhangLeft("soft ", ColorPatterns[3])
    ensures !Contains(" circular bubble background", ColorPatterns[3]) && NoOverhangRight(" circular bubble background", ColorPatterns[3])
    ensures !Contains("purple-blue", ColorPatterns[3])
  {
    var t := ColorPatterns[3];
    FirstCharOutside("soft ", t);
    MissingChar(" circular bubble background", t, 0);
    assert " circular bubble background"[..2] == " c" && t[|t| - 1] == 'k';
    MissingChar(t, " c", 1);
    NoOverhangRightUpTo(" circular bubble background", 2, t);
    ShortLacks("purple-blue", t);
  }

  lemma PlayfulBubbleAfter4(colors: seq<string>)
    requires NoColorPhrase(ColorString(colors))
    ensures !Contains("soft " + ColorReplacements(colors)[2] + " circular bubble background", ColorPatterns[4])
  {
    PlayfulBubbleAfterParts4();
    FirstColorLacks(colors, "purple-blue", ColorPatterns[4]);
    NoStraddle("soft ", FirstOr(colors, "purple-blue"), " circular bubble background", ColorPatterns[4]);
  }

  lemma PlayfulBubbleAfterParts4()
    ensures !Contains("soft ", ColorPatterns[4]) && NoOverhangLeft("soft ", ColorPatterns[4])
    ensures !Contains(" circular bubble background", ColorPatterns[4]) && NoOverhangRight(" circular bubble background", ColorPatterns[4])
    ensures !Contains("purple-blue", ColorPatterns[4])
  {
    var t := ColorPatterns[4];
    FirstCharOutside("soft ", t);
    LastCharOutside(" circular bubble background", t);
    ShortLacks("purple-blue", t);
  }

  lemma PlayfulBubbleAfter5(colors: seq<string>)
    requires NoColorPhrase(ColorString(colors))
    ensures !Contains("soft " + ColorReplacements(colors)[2] + " circular bubble background", ColorPatterns[5])
  {
    PlayfulBubbleAfterParts5();
    FirstColorLacks(colors, "purple-blue", ColorPatterns[5]);
    NoStraddle("soft ", FirstOr(colors, "purple-blue"), " circular bubble background", ColorPatterns[5]);
  }

  lemma PlayfulBubbleAfterParts5()
    ensures !Contains("soft ", ColorPatterns[5]) && NoOverhangLeft("soft ", ColorPatterns[5])
    ensures !Contains(" circular bubble background", ColorPatterns[5]) && NoOverhangRight(" circular bubble background", ColorPatterns[5])
    ensures !Contains("purple-blue", ColorPatterns[5])
  {
    var t := ColorPatterns[5];
    FirstCharOutside("soft ", t);
    LastCharOutside(" circular bubble background", t);
    ShortLacks("purple-blue", t);
  }

  lemma PlayfulBubbleAfter6(colors: seq<string>)
    requires NoColorPhrase(ColorString(colors))
    ensures !Contains("soft " + ColorReplacements(colors)[2] + " circular bubble background", ColorPatterns[6])
  {
    PlayfulBubbleAfterParts6();
    FirstColorLacks(colors, "purple-blue", ColorPatterns[6]);
    NoStraddle("soft ", FirstOr(colors, "purple-blue"), " circular bubble background", ColorPatterns[6]);
  }

  lemma PlayfulBubbleAfterParts6()
    ensures !Contains("soft ", ColorPatterns[6]) && NoOverhangLeft("soft ", ColorPatterns[6])
    ensures !Contains(" circular bubble background", ColorPatterns[6]) && NoOverhangRight(" circular bubble background", ColorPatterns[6])
    ensures !Contains("purple-blue", ColorPatterns[6])
  {
    var t := ColorPatterns[6];
    FirstCharOutside("soft ", t);
    MissingChar(" circular bubble background", t, 5);
    assert " circular bubble background"[..2] == " c" && t[|t| - 1] == 'n';
    MissingChar(t, " c", 1);
    NoOverhangRightUpTo(" circular bubble background", 2, t);
    ShortLacks("purple-blue", t);
  }
  /** The items of the WhimsicalClouds modifier other than item 1 hold no colour
      phrase. */
  lemma WhimsicalCloudsPlain()
    ensures forall k :: 0 <= k < |WhimsicalCloudsPhrases| && k != 1 ==> NoColorPhrase(WhimsicalCloudsPhrases[k])
  {
    WhimsicalCloudsItem0();
    WhimsicalCloudsItem2();
    WhimsicalCloudsItem3();
    WhimsicalCloudsItem4();
    WhimsicalCloudsItem5();
    WhimsicalCloudsItem6();
    WhimsicalCloudsItem7();
    WhimsicalCloudsItem8();
  }

  lemma WhimsicalCloudsItem0()
    ensures NoColorPhrase(WhimsicalCloudsPhrases[0])
  {
    LacksBK(WhimsicalCloudsPhrases[0]);
  }

  lemma WhimsicalCloudsItem2()
    ensures NoColorPhrase(WhimsicalCloudsPhrases[2])
  {
    LacksBK(WhimsicalCloudsPhrases[2]);
  }

  lemma WhimsicalCloudsItem3()
    ensures NoColorPhrase(WhimsicalCloudsPhrases[3])
  {
    LacksBK(WhimsicalCloudsPhrases[3]);
  }

  lemma WhimsicalCloudsItem4()
    ensures NoColorPhrase(WhimsicalCloudsPhrases[4])
  {
    LacksBK(WhimsicalCloudsPhrases[4]);
  }

  lemma WhimsicalCloudsItem5()
    ensures NoColorPhrase(WhimsicalCloudsPhrases[5])
  {
    LacksL(WhimsicalCloudsPhrases[5]);
  }

  lemma WhimsicalCloudsItem6()
    ensures NoColorPhrase(WhimsicalCloudsPhrases[6])
  {
    LacksBK(WhimsicalCloudsPhrases[6]);
  }

  lemma WhimsicalCloudsItem7()
    ensures NoColorPhrase(WhimsicalCloudsPhrases[7])
  {
    LacksGP(WhimsicalCloudsPhrases[7]);
  }

  lemma WhimsicalCloudsItem8()
    ensures NoColorPhrase(WhimsicalCloudsPhrases[8])
  {
    LacksP(WhimsicalCloudsPhrases[8]);
    MissingChar(WhimsicalCloudsPhrases[8], ColorPatterns[5], 1);
    WhimsicalCloudsItem8Phrase6();
  }

  lemma WhimsicalCloudsItem8Phrase6()
    ensures !Contains(WhimsicalCloudsPhrases[8], ColorPatterns[6])
  {
    ShortLacks(WhimsicalCloudsPhrases[8][..12], ColorPatterns[6]);
    MissingChar(WhimsicalCloudsPhrases[8][13..], ColorPatterns[6], 3);
    SplitLacksAt(WhimsicalCloudsPhrases[8], 12, ColorPatterns[6]);
  }

  lemma WhimsicalCloudsBefore()
    ensures forall i :: 0 <= i < 3 ==> !Contains(WhimsicalCloudsPhrases[1], ColorPatterns[i])
  {
    WhimsicalCloudsBefore0();
    WhimsicalCloudsBefore1();
  }

  lemma WhimsicalCloudsBefore0()
    ensures forall i :: 0 <= i < 2 ==> !Contains(WhimsicalCloudsPhrases[1], ColorPatterns[i])
  {
    forall i | 0 <= i < 2
      ensures !Contains(WhimsicalCloudsPhrases[1], ColorPatterns[i])
    {
      if i == 0 {
        ShortLacks(WhimsicalCloudsPhrases[1], ColorPatterns[0]);
      } else {
        MissingChar(WhimsicalCloudsPhrases[1], ColorPatterns[1], 9);
      }
    }
  }

  lemma WhimsicalCloudsBefore1()
    ensures !Contains(WhimsicalCloudsPhrases[1], ColorPatterns[2])
  {
    MissingChar(WhimsicalCloudsPhrases[1], ColorPatterns[2], 1);
  }

  lemma WhimsicalCloudsHit()
    ensures WhimsicalCloudsPhrases[1] == "soft " + ColorPatterns[3] + " colors"
    ensures !Contains("soft ", ColorPatterns[3]) && NoOverhangLeft("soft ", ColorPatterns[3])
    ensures !Contains(" colors", ColorPatterns[3])
  {
    FirstCharOutside("soft ", ColorPatterns[3]);
    ShortLacks(" colors", ColorPatterns[3]);
  }

  lemma WhimsicalCloudsAfter(colors: seq<string>)
    requires NoColorPhrase(ColorString(colors))
    ensures forall i :: 3 < i < |ColorPatterns| ==>
      !Contains("soft " + ColorReplacements(colors)[3] + " colors", ColorPatterns[i])
  {
    WhimsicalCloudsAfter4(colors);
    WhimsicalCloudsAfter5(colors);
    WhimsicalCloudsAfter6(colors);
  }

  lemma WhimsicalCloudsAfter4(colors: seq<string>)
    requires NoColorPhrase(ColorString(colors))
    ensures !Contains("soft " + ColorReplacements(colors)[3] + " colors", ColorPatterns[4])
  {
    WhimsicalCloudsAfterParts4();
    assert !Contains(ColorString(colors), ColorPatterns[4]);
    NoStraddle("soft ", ColorString(colors), " colors", ColorPatterns[4]);
  }

  lemma WhimsicalCloudsAfterParts4()
    ensures !Contains("soft ", ColorPatterns[4]) && NoOverhangLeft("soft ", ColorPatterns[4])
    ensures !Contains(" colors", ColorPatterns[4]) && NoOverhangRight(" colors", ColorPatterns[4])
  {
    var t := ColorPatterns[4];
    FirstCharOutside("soft ", t);
    LastCharOutside(" colors", t);
  }

  lemma WhimsicalCloudsAfter5(colors: seq<string>)
    requires NoColorPhrase(ColorString(colors))
    ensures !Contains("soft " + ColorReplacements(colors)[3] + " colors", ColorPatterns[5])
  {
    WhimsicalCloudsAfterParts5();
    assert !Contains(ColorString(colors), ColorPatterns[5]);
    NoStraddle("soft ", ColorString(colors), " colors", ColorPatterns[5]);
  }

  lemma WhimsicalCloudsAfterParts5()
    ensures !Contains("soft ", ColorPatterns[5]) && NoOverhangLeft("soft ", ColorPatterns[5])
    ensures !Contains(" colors", ColorPatterns[5]) && NoOverhangRight(" colors", ColorPatterns[5])
  {
    var t := ColorPatterns[5];
    FirstCharOutside("soft ", t);
    LastCharOutside(" colors", t);
  }

  lemma WhimsicalCloudsAfter6(colors: seq<string>)
    requires NoColorPhrase(ColorString(colors))
    ensures !Contains("soft " + ColorReplacements(colors)[3] + " colors", ColorPatterns[6])
  {
    WhimsicalCloudsAfterParts6();
    assert !Contains(ColorString(colors), ColorPatterns[6]);
    NoStraddle("soft ", ColorString(colors), " colors", ColorPatterns[6]);
  }

  lemma WhimsicalCloudsAfterParts6()
    ensures !Contains("soft ", ColorPatterns[6]) && NoOverhangLeft("soft ", ColorPatterns[6])
    ensures !Contains(" colors", ColorPatterns[6]) && NoOverhangRight(" colors", ColorPatterns[6])
  {
    var t := ColorPatterns[6];
    FirstCharOutside("soft ", t);
    LastCharOutside(" colors", t);
  }
  /** The items of the CircleBadge modifier other than item 1 hold no colour
      phrase. */
  lemma CircleBadgePlain()
    ensures forall k :: 0 <= k < |CircleBadgePhrases| && k != 1 ==> NoColorPhrase(CircleBadgePhrases[k])
  {
    CircleBadgeItem0();
    CircleBadgeItem2();
    CircleBadgeItem3();
    CircleBadgeItem4();
    CircleBadgeItem5();
    CircleBadgeItem6();
    CircleBadgeItem7();
    CircleBadgeItem8();
    CircleBadgeItem9();
  }

  lemma CircleBadgeItem0()
    ensures NoColorPhrase(CircleBadgePhrases[0])
  {
    LacksE(CircleBadgePhrases[0]);
  }

  lemma CircleBadgeItem2()
    ensures NoColorPhrase(CircleBadgePhrases[2])
  {
    LacksDashN(CircleBadgePhrases[2]);
  }

  lemma CircleBadgeItem3()
    ensures NoColorPhrase(CircleBadgePhrases[3])
  {
    LacksBK(CircleBadgePhrases[3]);
  }

  lemma CircleBadgeItem4()
    ensures NoColorPhrase(CircleBadgePhrases[4])
  {
    LacksL(CircleBadgePhrases[4]);
  }

  lemma CircleBadgeItem5()
    ensures NoColorPhrase(CircleBadgePhrases[5])
  {
    LacksDashT(CircleBadgePhrases[5]);
  }

  lemma CircleBadgeItem6()
    ensures NoColorPhrase(CircleBadgePhrases[6])
  {
    LacksBK(CircleBadgePhrases[6]);
  }

  lemma CircleBadgeItem7()
    ensures NoColorPhrase(CircleBadgePhrases[7])
  {
    LacksBK(CircleBadgePhrases[7]);
  }

  lemma CircleBadgeItem8()
    ensures NoColorPhrase(CircleBadgePhrases[8])
  {
    LacksBK(CircleBadgePhrases[8]);
  }

  lemma CircleBadgeItem9()
    ensures NoColorPhrase(CircleBadgePhrases[9])
  {
    LacksBK(CircleBadgePhrases[9]);
  }

  lemma CircleBadgeBefore()
    ensures forall i :: 0 <= i < 6 ==> !Contains(CircleBadgePhrases[1], ColorPatterns[i])
  {
    CircleBadgeBefore0();
    CircleBadgeBefore1();
    CircleBadgeBefore2();
    CircleBadgeBefore3();
    CircleBadgeBefore4();
    CircleBadgeBefore5();
  }

  lemma CircleBadgeBefore0()
    ensures !Contains(CircleBadgePhrases[1], ColorPatterns[0])
  {
    MissingChar(CircleBadgePhrases[1], ColorPatterns[0], 2);
  }

  lemma CircleBadgeBefore1()
    ensures !Contains(CircleBadgePhrases[1], ColorPatterns[1])
  {
    MissingChar(CircleBadgePhrases[1], ColorPatterns[1], 0);
  }

  lemma CircleBadgeBefore2()
    ensures !Contains(CircleBadgePhrases[1], ColorPatterns[2])
  {
    MissingChar(CircleBadgePhrases[1], ColorPatterns[2], 0);
  }

  lemma CircleBadgeBefore3()
    ensures !Contains(CircleBadgePhrases[1], ColorPatterns[3])
  {
    MissingChar(CircleBadgePhrases[1], ColorPatterns[3], 0);
  }

  lemma CircleBadgeBefore4()
    ensures !Contains(CircleBadgePhrases[1], ColorPatterns[4])
  {
    MissingChar(CircleBadgePhrases[1], ColorPatterns[4], 5);
  }

  lemma CircleBadgeBefore5()
    ensures !Contains(CircleBadgePhrases[1], ColorPatterns[5])
  {
    MissingChar(CircleBadgePhrases[1], ColorPatterns[5], 1);
  }

  lemma CircleBadgeHit()
    ensures CircleBadgePhrases[1] == "white silhouette on " + ColorPatterns[6] + " circular background"
    ensures !Contains("white silhouette on ", ColorPatterns[6]) && NoOverhangLeft("white silhouette on ", ColorPatterns[6])
    ensures !Contains(" circular background", ColorPatterns[6])
  {
    FirstCharOutside("white silhouette on ", ColorPatterns[6]);
    MissingChar(" circular background", ColorPatterns[6], 5);
  }

  /** The items of the Glossy3D modifier other than items 1 and 2 hold no colour
      phrase. */
  lemma Glossy3DPlain()
    ensures forall k :: 0 <= k < |Glossy3DPhrases| && k != 1 && k != 2 ==> NoColorPhrase(Glossy3DPhrases[k])
  {
    Glossy3DItem0();
    Glossy3DItem3();
    Glossy3DItem4();
    Glossy3DItem5();
    Glossy3DItem6();
    Glossy3DItem7();
    Glossy3DItem8();
    Glossy3DItem9();
  }

  lemma Glossy3DItem0()
    ensures NoColorPhrase(Glossy3DPhrases[0])
  {
    LacksBK(Glossy3DPhrases[0]);
  }

  lemma Glossy3DItem3()
    ensures NoColorPhrase(Glossy3DPhrases[3])
  {
    LacksBK(Glossy3DPhrases[3]);
  }

  lemma Glossy3DItem4()
    ensures NoColorPhrase(Glossy3DPhrases[4])
  {
    LacksBK(Glossy3DPhrases[4]);
  }

  lemma Glossy3DItem5()
    ensures NoColorPhrase(Glossy3DPhrases[5])
  {
    LacksBK(Glossy3DPhrases[5]);
  }

  lemma Glossy3DItem6()
    ensures NoColorPhrase(Glossy3DPhrases[6])
  {
    LacksP(Glossy3DPhrases[6]);
    MissingChar(Glossy3DPhrases[6], ColorPatterns[5], 1);
    Glossy3DItem6Phrase6();
  }

  lemma Glossy3DItem6Phrase6()
    ensures !Contains(Glossy3DPhrases[6], ColorPatterns[6])
  {
    ShortLacks(Glossy3DPhrases[6][..6], ColorPatterns[6]);
    MissingChar(Glossy3DPhrases[6][7..], ColorPatterns[6], 8);
    SplitLacksAt(Glossy3DPhrases[6], 6, ColorPatterns[6]);
  }

  lemma Glossy3DItem7()
    ensures NoColorPhrase(Glossy3DPhrases[7])
  {
    LacksDashT(Glossy3DPhrases[7]);
  }

  lemma Glossy3DItem8()
    ensures NoColorPhrase(Glossy3DPhrases[8])
  {
    LacksL(Glossy3DPhrases[8]);
  }

  lemma Glossy3DItem9()
    ensures NoColorPhrase(Glossy3DPhrases[9])
  {
    LacksAP(Glossy3DPhrases[9]);
  }

  lemma Glossy3DBefore()
    ensures forall i :: 0 <= i < 4 ==> !Contains(Glossy3DPhrases[1], ColorPatterns[i]) && !Contains(Glossy3DPhrases[2], ColorPatterns[i])
  {
    Glossy3DBefore10();
    Glossy3DBefore11();
    Glossy3DBefore20();
    Glossy3DBefore21();
  }

  lemma Glossy3DBefore10()
    ensures forall i :: 0 <= i < 2 ==> !Contains(Glossy3DPhrases[1], ColorPatterns[i])
  {
    forall i | 0 <= i < 2
      ensures !Contains(Glossy3DPhrases[1], ColorPatterns[i])
    {
      if i == 0 {
        ShortLacks(Glossy3DPhrases[1], ColorPatterns[0]);
      } else {
        MissingChar(Glossy3DPhrases[1], ColorPatterns[1], 3);
      }
    }
  }

  lemma Glossy3DBefore11()
    ensures forall i :: 2 <= i < 4 ==> !Contains(Glossy3DPhrases[1], ColorPatterns[i])
  {
    forall i | 2 <= i < 4
      ensures !Contains(Glossy3DPhrases[1], ColorPatterns[i])
    {
      if i == 2 {
        MissingChar(Glossy3DPhrases[1], ColorPatterns[2], 6);
      } else {
        MissingChar(Glossy3DPhrases[1], ColorPatterns[3], 14);
      }
    }
  }

  lemma Glossy3DBefore20()
    ensures forall i :: 0 <= i < 2 ==> !Contains(Glossy3DPhrases[2], ColorPatterns[i])
  {
    forall i | 0 <= i < 2
      ensures !Contains(Glossy3DPhrases[2], ColorPatterns[i])
    {
      if i == 0 {
        ShortLacks(Glossy3DPhrases[2], ColorPatterns[0]);
      } else {
        ShortLacks(Glossy3DPhrases[2], ColorPatterns[1]);
      }
    }
  }

  lemma Glossy3DBefore21()
    ensures forall i :: 2 <= i < 4 ==> !Contains(Glossy3DPhrases[2], ColorPatterns[i])
  {
    forall i | 2 <= i < 4
      ensures !Contains(Glossy3DPhrases[2], ColorPatterns[i])
    {
      if i == 2 {
        MissingChar(Glossy3DPhrases[2], ColorPatterns[2], 0);
      } else {
        MissingChar(Glossy3DPhrases[2], ColorPatterns[3], 0);
      }
    }
  }

  lemma Glossy3DHalves()
    ensures Glossy3DPhrases[1] == "shiny " + "blue plastic material"
    ensures Glossy3DPhrases[2] == ColorPatterns[5]
  {
  }

  lemma Glossy3DHit()
    ensures Glossy3DPhrases[1] + ", " + Glossy3DPhrases[2] == "shiny " + ColorPatterns[4]
    ensures ColorPatterns[4][0] !in "shiny " && !Contains(ColorPatterns[4], "shiny ")
    ensures !Contains("shiny ", ColorPatterns[5])
  {
    Glossy3DHalves();
    PlasticHalves();
    Regroup3("shiny ", "blue plastic material", ", ", ColorPatterns[5]);
    assert ColorPatterns[4][0] == 'b';
    MissingChar(ColorPatterns[4], "shiny ", 1);
    ShortLacks("shiny ", ColorPatterns[5]);
  }

  lemma Glossy3DAfter(colors: seq<string>)
    requires NoColorPhrase(ColorString(colors))
    ensures forall i :: 4 < i < |ColorPatterns| ==>
      !Contains("shiny " + ColorReplacements(colors)[4], ColorPatterns[i])
  {
    Glossy3DMerged(ColorString(colors));
    Glossy3DAfter5(colors);
    Glossy3DAfter6(colors);
  }

  lemma Glossy3DMerged(cs: string)
    ensures "shiny " + ("plastic material in " + cs) == "shiny plastic material in " + cs
  {
    assert "shiny " + "plastic material in " == "shiny plastic material in ";
  }

  lemma Glossy3DAfter5(colors: seq<string>)
    requires NoColorPhrase(ColorString(colors))
    ensures !Contains("shiny plastic material in " + ColorString(colors), ColorPatterns[5])
  {
    Glossy3DAfterParts5();
    assert !Contains(ColorString(colors), ColorPatterns[5]);
    NoCrossingLeft("shiny plastic material in ", ColorString(colors), ColorPatterns[5]);
  }

  lemma Glossy3DAfterParts5()
    ensures !Contains("shiny plastic material in ", ColorPatterns[5]) && NoOverhangLeft("shiny plastic material in ", ColorPatterns[5])
  {
    var t := ColorPatterns[5];
    MissingChar("shiny plastic material in ", t, 7);
    assert "shiny plastic material in "[14..] == "material in " && t[0] == 'c';
    MissingChar(t, "material in ", 0);
    NoOverhangLeftFrom("shiny plastic material in ", 14, t);
  }

  lemma Glossy3DAfter6(colors: seq<string>)
    requires NoColorPhrase(ColorString(colors))
    ensures !Contains("shiny plastic material in " + ColorString(colors), ColorPatterns[6])
  {
    Glossy3DAfterParts6();
    assert !Contains(ColorString(colors), ColorPatterns[6]);
    NoCrossingLeft("shiny plastic material in ", ColorString(colors), ColorPatterns[6]);
  }

  lemma Glossy3DAfterParts6()
    ensures !Contains("shiny plastic material in ", ColorPatterns[6]) && NoOverhangLeft("shiny plastic material in ", ColorPatterns[6])
  {
    var t := ColorPatterns[6];
    FirstCharOutside("shiny plastic material in ", t);
  }
}
