/** The brand-colour editor of the client: HEX validation and
    normalisation, and the edits on the colour list (change one entry, add a
    default entry, remove an entry) together with the per-row error flags. */
module ColorInput {
  import opened Text

  /** At most this many colours can be entered. */
  const MaxColors := 4

  /** The colour a new row starts with. */
  const DefaultNewColor := "#667eea"

  const InvalidHexMessage := "Invalid HEX format"

  predicate IsHexDigit(c: char) {
    '0' <= c <= '9' || 'a' <= c <= 'f' || 'A' <= c <= 'F'
  }

  /** `t` is exactly `n` characters of the class `[A-Fa-f0-9]`. */
  predicate HexDigits(t: string, n: nat) {
    |t| == n && forall i :: 0 <= i < |t| ==> IsHexDigit(t[i])
  }

  /** `isValidHexColor`: the whole string matches
      `^#([A-Fa-f0-9]{6}|[A-Fa-f0-9]{3})$`. */
  predicate IsValidHexColor(s: string) {
    |s| >= 1 && s[0] == '#' && (HexDigits(s[1..], 6) || HexDigits(s[1..], 3))
  }

  /** The same test as one left-to-right scan: length 4 or 7, a leading '#',
      and hex digits after it. */
  method CheckHexColor(s: string) returns (ok: bool)
    ensures ok <==> IsValidHexColor(s)
  {
    if (|s| != 4 && |s| != 7) || s[0] != '#' {
      return false;
    }
    var i := 1;
    while i < |s|
      invariant 1 <= i <= |s|
      invariant forall j :: 1 <= j < i ==> IsHexDigit(s[j])
    {
      if !IsHexDigit(s[i]) {
        assert s[1..][i - 1] == s[i];
        return false;
      }
      i := i + 1;
    }
    assert forall j :: 0 <= j < |s[1..]| ==> s[1..][j] == s[j + 1];
    return true;
  }

  predicate StartsWithHash(t: string) {
    |t| > 0 && t[0] == '#'
  }

  /** `t` without one leading '#', if it has one. */
  function StripHash(t: string): (r: string)
    ensures StartsWithHash(t) ==> "#" + r == t
    ensures !StartsWithHash(t) ==> r == t
  {
    if StartsWithHash(t) then t[1..] else t
  }

  /** `normalizeHexColor`: trim, prefix '#' unless already there, and
      upper-case. */
  function NormalizeHexColor(color: string): string {
    var hex := Trim(color);
    ToUpper(if StartsWithHash(hex) then hex else "#" + hex)
  }

  /** The normalised colour is one '#' followed by the upper-cased trimmed
      input without its own leading '#'. */
  lemma NormalizeForm(color: string)
    ensures NormalizeHexColor(color) == "#" + ToUpper(StripHash(Trim(color)))
  {
    var hex := Trim(color);
    var x := StripHash(hex);
    assert (if StartsWithHash(hex) then hex else "#" + hex) == ['#'] + x;
    ToUpperCons('#', x);
  }

  /** '#' followed by the upper-cased rest of a trimmed string has no
      surrounding white space and no lower-case ASCII letter. */
  lemma PrefixedShape(hex: string)
    requires Trimmed(hex)
    ensures var r := "#" + ToUpper(StripHash(hex));
      && Trimmed(r)
      && forall i :: 0 <= i < |r| ==> !IsLowerAscii(r[i])
  {
    var x := StripHash(hex);
    var r := "#" + ToUpper(x);
    if |x| > 0 {
      assert x[|x| - 1] == hex[|hex| - 1];
      assert r[|r| - 1] == UpperChar(x[|x| - 1]);
      UpperCharFacts(x[|x| - 1]);
    }
    forall i | 1 <= i < |r|
      ensures !IsLowerAscii(r[i])
    {
      UpperCharFacts(x[i - 1]);
    }
  }

  /** The normalised colour starts with '#', is one longer than the trimmed
      input unless that already starts with '#', has no surrounding white
      space and no lower-case ASCII letter. */
  lemma NormalizeShape(color: string)
    ensures var r := NormalizeHexColor(color);
      && |r| > 0 && r[0] == '#'
      && |r| == |Trim(color)| + (if StartsWithHash(Trim(color)) then 0 else 1)
      && r[1..] == ToUpper(StripHash(Trim(color)))
      && Trimmed(r)
      && forall i :: 0 <= i < |r| ==> !IsLowerAscii(r[i])
  {
    var hex := Trim(color);
    NormalizeForm(color);
    PrefixedShape(hex);
    assert ("#" + ToUpper(StripHash(hex)))[1..] == ToUpper(StripHash(hex));
  }

  /** Upper-casing keeps hex digits hex digits and everything else not. */
  lemma UpperKeepsHexDigits(t: string, n: nat)
    ensures HexDigits(ToUpper(t), n) <==> HexDigits(t, n)
  {
    assert forall c :: IsHexDigit(UpperChar(c)) <==> IsHexDigit(c);
  }

  /** A value normalises to a valid colour exactly when, trimmed and without
      a leading '#', it is three or six hex digits in either case. */
  lemma NormalizedValidIff(color: string)
    ensures IsValidHexColor(NormalizeHexColor(color)) <==>
      (HexDigits(StripHash(Trim(color)), 3) || HexDigits(StripHash(Trim(color)), 6))
  {
    var x := StripHash(Trim(color));
    NormalizeForm(color);
    assert ("#" + ToUpper(x))[1..] == ToUpper(x);
    UpperKeepsHexDigits(x, 3);
    UpperKeepsHexDigits(x, 6);
  }

  /** A trimmed '#' followed by `u` normalises to '#' followed by the
      upper-cased `u`. */
  lemma NormalizePrefixed(u: string)
    requires Trimmed("#" + u)
    ensures NormalizeHexColor("#" + u) == "#" + ToUpper(u)
  {
    TrimOfTrimmed("#" + u);
    StripHashPrefixed(u);
    NormalizeForm("#" + u);
  }

  lemma StripHashPrefixed(u: string)
    ensures StripHash("#" + u) == u
  {
    assert ("#" + u)[1..] == u;
  }

  /** Normalising a normalised colour changes nothing. */
  lemma NormalizeIdempotent(color: string)
    ensures NormalizeHexColor(NormalizeHexColor(color)) == NormalizeHexColor(color)
  {
    var x := StripHash(Trim(color));
    NormalizeForm(color);
    PrefixedShape(Trim(color));
    NormalizePrefixed(ToUpper(x));
    ToUpperFacts(x);
  }

  /** A value that is already a valid colour is never flagged. */
  lemma ValidColorNotFlagged(c: string)
    requires IsValidHexColor(c)
    ensures !Flagged(c)
  {
    assert !IsWhitespace(c[0]) && !IsWhitespace(c[|c| - 1]) by {
      assert IsHexDigit(c[1..][|c| - 2]);
    }
    TrimOfTrimmed(c);
    NormalizedValidIff(c);
  }

  /** The new-row colour "#667eea" normalises to a valid colour, so a freshly
      added row is never flagged. */
  lemma DefaultColorValid()
    ensures !Flagged(DefaultNewColor)
  {
    var d := DefaultNewColor;
    assert d[1..] == "667eea";
    assert HexDigits(d[1..], 6);
    ValidColorNotFlagged(d);
  }

  /** The row-error map of the component: index to message. */
  type ErrorMap = map<nat, string>

  /** `value && !isValidHexColor(normalizeHexColor(value))`: a non-empty
      value that does not normalise to a valid colour. */
  predicate Flagged(value: string) {
    value != [] && !IsValidHexColor(NormalizeHexColor(value))
  }

  /** The colour list handed to `onChange` and the error map after an edit. */
  datatype Edit = Edit(colors: seq<string>, errors: ErrorMap)

  /** `handleColorChange(index, value)`: the list with entry `index` replaced
      by the raw value, and the error for `index` set or cleared; all other
      entries and errors are left as they were. */
  function HandleColorChange(colors: seq<string>, errors: ErrorMap, index: nat, value: string): (r: Edit)
    requires index < |colors|
    ensures |r.colors| == |colors| && r.colors[index] == value
    ensures forall k :: 0 <= k < |colors| && k != index ==> r.colors[k] == colors[k]
    ensures index in r.errors <==> Flagged(value)
    ensures index in r.errors ==> r.errors[index] == InvalidHexMessage
    ensures forall k :: k != index ==> (k in r.errors <==> k in errors)
    ensures forall k :: k != index && k in errors ==> r.errors[k] == errors[k]
  {
    var newErrors := if Flagged(value) then errors[index := InvalidHexMessage] else errors - {index};
    Edit(colors[index := value], newErrors)
  }

  /** The "+ Add Color" control is offered below the cap. */
  predicate AddOffered(colors: seq<string>) {
    |colors| < MaxColors
  }

  /** `addColor`: append the default colour below the cap, else nothing. */
  function AddColor(colors: seq<string>): (r: seq<string>)
    ensures r != colors <==> AddOffered(colors)
    ensures AddOffered(colors) ==> r == colors + [DefaultNewColor]
    ensures |colors| <= MaxColors ==> |r| <= MaxColors
  {
    if |colors| < MaxColors then colors + [DefaultNewColor] else colors
  }

  /** However many times "+ Add Color" is pressed, the list never grows
      past four entries, and it grows by exactly the missing count. */
  lemma {:induction false} RepeatedAddCapped(colors: seq<string>, n: nat)
    requires |colors| <= MaxColors
    ensures |AddTimes(colors, n)| == if |colors| + n <= MaxColors then |colors| + n else MaxColors
    ensures AddTimes(colors, n)[..|colors|] == colors
    decreases n
  {
    if n > 0 {
      RepeatedAddCapped(AddColor(colors), n - 1);
    }
  }

  /** Pressing "+ Add Color" `n` times. */
  function AddTimes(colors: seq<string>, n: nat): seq<string>
    decreases n
  {
    if n == 0 then colors else AddTimes(AddColor(colors), n - 1)
  }

  /** `removeColor(index)`: `colors.filter((_, i) => i !== index)`, walking
      the list with the index shifted down by one per step. The result is
      the list with exactly entry `index` taken out, the rest in order; an
      index outside the list removes nothing. */
  function RemoveColor(colors: seq<string>, index: int): (r: seq<string>)
    ensures 0 <= index < |colors| ==> r == colors[..index] + colors[index + 1..]
    ensures !(0 <= index < |colors|) ==> r == colors
    decreases |colors|
  {
    if colors == [] then []
    else
      var rest := RemoveColor(colors[1..], index - 1);
      if index == 0 then rest
      else
        assert 0 < index < |colors| ==> colors[..index] == [colors[0]] + colors[1..][..index - 1];
        assert [colors[0]] + colors[1..] == colors;
        [colors[0]] + rest
  }

  /** The error map records exactly the rows of `colors` that `flagged`
      rejects, each with the one message. */
  predicate MatchesBy(flagged: string -> bool, colors: seq<string>, errors: ErrorMap) {
    && (forall k :: k in errors ==> k < |colors|)
    && (forall k :: 0 <= k < |colors| ==> (k in errors <==> flagged(colors[k])))
    && (forall k :: k in errors ==> errors[k] == InvalidHexMessage)
  }

  /** The error map records exactly the rows whose value is flagged. */
  predicate ErrorsMatch(colors: seq<string>, errors: ErrorMap) {
    MatchesBy(Flagged, colors, errors)
  }

  /** The component starts with no errors; with the initial empty list they
      match. */
  lemma InitialErrorsMatch()
    ensures ErrorsMatch([], map[])
  {
  }

  /** Replacing one row and setting or clearing its error by the new value
      keeps the map matching, whatever the flag test. */
  lemma ChangeMatches(flagged: string -> bool, colors: seq<string>, errors: ErrorMap, index: nat, value: string)
    requires index < |colors|
    requires MatchesBy(flagged, colors, errors)
    ensures MatchesBy(flagged, colors[index := value],
                      if flagged(value) then errors[index := InvalidHexMessage] else errors - {index})
  {
    var c := colors[index := value];
    assert forall k :: 0 <= k < |c| && k != index ==> c[k] == colors[k];
  }

  /** Appending a row that is not flagged keeps the map matching. */
  lemma AppendMatches(flagged: string -> bool, colors: seq<string>, errors: ErrorMap, c: string)
    requires MatchesBy(flagged, colors, errors)
    requires !flagged(c)
    ensures MatchesBy(flagged, colors + [c], errors)
  {
    var a := colors + [c];
    assert forall k :: 0 <= k < |colors| ==> a[k] == colors[k];
  }

  /** Editing a row keeps the error map in step with the list. */
  lemma ChangeKeepsErrorsMatching(colors: seq<string>, errors: ErrorMap, index: nat, value: string)
    requires index < |colors|
    requires ErrorsMatch(colors, errors)
    ensures var e := HandleColorChange(colors, errors, index, value); ErrorsMatch(e.colors, e.errors)
  {
    ChangeMatches(Flagged, colors, errors, index, value);
  }

  /** Adding a row keeps the error map in step with the list, because the
      new row holds a valid colour. */
  lemma AddKeepsErrorsMatching(colors: seq<string>, errors: ErrorMap)
    requires ErrorsMatch(colors, errors)
    ensures ErrorsMatch(AddColor(colors), errors)
  {
    DefaultColorValid();
    AppendMatches(Flagged, colors, errors, DefaultNewColor);
  }

  /** `removeColor` as written: the list loses the row but the error map is
      not touched, so errors stay attached to row numbers. */
  function RemoveColorAsWritten(colors: seq<string>, errors: ErrorMap, index: int): (r: Edit)
    ensures r.colors == RemoveColor(colors, index)
    ensures r.errors == errors
  {
    Edit(RemoveColor(colors, index), errors)
  }

  /** A non-empty trimmed value without a leading '#' whose length is
      neither 3 nor 6 is flagged. */
  lemma WrongLengthFlagged(c: string)
    requires Trimmed(c) && c != [] && !StartsWithHash(c) && |c| != 3 && |c| != 6
    ensures Flagged(c)
  {
    TrimOfTrimmed(c);
    NormalizedValidIff(c);
  }

  /** Whatever the flag test, a flagged row followed by an unflagged one
      matches the map holding only row 0, and after the as-written removal
      that entry sits on the unflagged row. */
  lemma StaleEntryMismatch(flagged: string -> bool, a: string, b: string)
    requires flagged(a) && !flagged(b)
    ensures MatchesBy(flagged, [a, b], map[0 := InvalidHexMessage])
    ensures !MatchesBy(flagged, [b], map[0 := InvalidHexMessage])
  {
    assert [b][0] == b;
  }

  /** Removing a flagged row in front of an unflagged one, as written,
      leaves the unflagged row marked as invalid: the error map no longer
      matches the list. */
  lemma RemoveAsWrittenMisplaces(a: string, b: string)
    requires Flagged(a) && !Flagged(b)
    ensures ErrorsMatch([a, b], map[0 := InvalidHexMessage])
    ensures var e := RemoveColorAsWritten([a, b], map[0 := InvalidHexMessage], 0);
      e.colors == [b] && 0 in e.errors && !ErrorsMatch(e.colors, e.errors)
  {
    StaleEntryMismatch(Flagged, a, b);
    var colors := [a, b];
    assert colors[..0] + colors[1..] == [b];
  }

  /** "x" is flagged: it is neither three nor six characters long. */
  lemma ShortValueFlagged()
    ensures Flagged("x")
  {
    var x := "x";
    assert !IsWhitespace(x[0]);
    WrongLengthFlagged(x);
  }

  /** "#FFF" is a valid colour and so not flagged. */
  lemma ShortHexNotFlagged()
    ensures !Flagged("#FFF")
  {
    var f := "#FFF";
    assert f[1..] == "FFF";
    assert HexDigits(f[1..], 3);
    ValidColorNotFlagged(f);
  }

  /** Removing an invalid "x" in front of "#FFF" leaves "#FFF" marked
      "Invalid HEX format". */
  lemma RemoveAsWrittenMisplacesError()
    ensures ErrorsMatch(["x", "#FFF"], map[0 := InvalidHexMessage])
    ensures var e := RemoveColorAsWritten(["x", "#FFF"], map[0 := InvalidHexMessage], 0);
      e.colors == ["#FFF"] && 0 in e.errors && !ErrorsMatch(e.colors, e.errors)
  {
    ShortValueFlagged();
    ShortHexNotFlagged();
    RemoveAsWrittenMisplaces("x", "#FFF");
  }

  /** The error map re-indexed for a removal: the entry of the removed row
      is dropped and the entries after it move down by one. */
  function ShiftErrors(errors: ErrorMap, index: nat): (r: ErrorMap)
    ensures forall k {:trigger k in r} :: k in r <==> (k < index && k in errors) || (k >= index && k + 1 in errors)
    ensures forall k {:trigger k in r} :: k in r && k < index ==> k in errors && r[k] == errors[k]
    ensures forall k {:trigger k in r} :: k in r && k >= index ==> k + 1 in errors && r[k] == errors[k + 1]
  {
    var below := set k | k in errors && k < index;
    var above := set k | k in errors && k > index :: k - 1;
    assert forall j :: j in above <==> j >= index && j + 1 in errors by {
      forall j | j >= index && j + 1 in errors ensures j in above {
        var k := j + 1;
        assert k in errors && k > index && k - 1 == j;
      }
    }
    map j | j in below + above :: if j < index then errors[j] else errors[j + 1]
  }

  /** `removeColor` with the error map re-indexed along with the list. */
  function RemoveColorReindexed(colors: seq<string>, errors: ErrorMap, index: nat): (r: Edit)
    ensures r.colors == RemoveColor(colors, index)
    ensures index < |colors| ==> r.errors == ShiftErrors(errors, index)
  {
    if index < |colors| then Edit(RemoveColor(colors, index), ShiftErrors(errors, index))
    else Edit(colors, errors)
  }

  /** Re-indexing the errors along with a removal keeps the map matching,
      whatever the flag test. */
  lemma ShiftMatches(flagged: string -> bool, colors: seq<string>, errors: ErrorMap, index: nat)
    requires index < |colors|
    requires MatchesBy(flagged, colors, errors)
    ensures MatchesBy(flagged, colors[..index] + colors[index + 1..], ShiftErrors(errors, index))
  {
    var c := colors[..index] + colors[index + 1..];
    var shifted := ShiftErrors(errors, index);
    forall k | 0 <= k < |c|
      ensures k in shifted <==> flagged(c[k])
    {
      if k < index {
        assert c[k] == colors[k];
      } else {
        assert c[k] == colors[k + 1];
      }
    }
  }

  /** With re-indexing, removing a row keeps the error map in step with the
      list. */
  lemma RemoveReindexedKeepsErrorsMatching(colors: seq<string>, errors: ErrorMap, index: nat)
    requires ErrorsMatch(colors, errors)
    ensures var e := RemoveColorReindexed(colors, errors, index); ErrorsMatch(e.colors, e.errors)
  {
    if index < |colors| {
      ShiftMatches(Flagged, colors, errors, index);
    }
  }
}
