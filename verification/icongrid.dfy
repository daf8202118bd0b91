/** The result grid of the client: the file name each download is saved
    under, the alt text of each image, and the order in which "Download All"
    works through the images. */
module IconGrid {
  import opened Text
  import opened ClientApi

  /** `s.replace(/\s+/g, '-')`: every maximal run of white space becomes a
      single '-'. At a white-space character the whole run is consumed at
      once (`TrimStart` drops it), so the next character is not white
      space. */
  function Dashify(s: string): (r: string)
    ensures |r| <= |s|
    ensures forall i :: 0 <= i < |r| ==> !IsWhitespace(r[i])
    decreases |s|
  {
    if s == [] then []
    else if IsWhitespace(s[0]) then "-" + Dashify(TrimStart(s))
    else [s[0]] + Dashify(s[1..])
  }

  /** The characters that are neither white space nor '-', in order. */
  function Letters(s: string): (r: string)
    ensures forall i :: 0 <= i < |r| ==> !IsWhitespace(r[i]) && r[i] != '-'
    decreases |s|
  {
    if s == [] then []
    else if IsWhitespace(s[0]) || s[0] == '-' then Letters(s[1..])
    else [s[0]] + Letters(s[1..])
  }

  lemma {:induction false} LettersAppend(a: string, b: string)
    ensures Letters(a + b) == Letters(a) + Letters(b)
    decreases |a|
  {
    if a == [] {
      assert a + b == b;
    } else {
      assert (a + b)[1..] == a[1..] + b;
      LettersAppend(a[1..], b);
    }
  }

  /** Leading white space holds no letters. */
  lemma {:induction false} LettersTrimStart(s: string)
    ensures Letters(TrimStart(s)) == Letters(s)
    decreases |s|
  {
    if |s| > 0 && IsWhitespace(s[0]) {
      LettersTrimStart(s[1..]);
    }
  }

  /** The prompt's visible characters all reach the file name, unchanged
      and in order: only white space is rewritten. */
  lemma {:induction false} DashifyKeepsLetters(s: string)
    ensures Letters(Dashify(s)) == Letters(s)
    decreases |s|
  {
    if s != [] {
      if IsWhitespace(s[0]) {
        var t := TrimStart(s);
        DashifyKeepsLetters(t);
        LettersAppend("-", Dashify(t));
        LettersTrimStart(s);
      } else {
        DashifyKeepsLetters(s[1..]);
        LettersAppend([s[0]], Dashify(s[1..]));
        assert s == [s[0]] + s[1..];
        LettersAppend([s[0]], s[1..]);
      }
    }
  }

  /** A string without white space is left as it is. */
  lemma {:induction false} DashifyWithoutWhitespace(s: string)
    requires forall i :: 0 <= i < |s| ==> !IsWhitespace(s[i])
    ensures Dashify(s) == s
    decreases |s|
  {
    if s != [] {
      DashifyWithoutWhitespace(s[1..]);
      assert [s[0]] + s[1..] == s;
    }
  }

  /** Two words separated by any run of white space are joined by exactly
      one '-'. */
  lemma {:induction false} DashifyRun(w: string, run: string, v: string)
    requires forall i :: 0 <= i < |w| ==> !IsWhitespace(w[i])
    requires run != [] && Blank(run)
    requires forall i :: 0 <= i < |v| ==> !IsWhitespace(v[i])
    ensures Dashify(w + run + v) == w + "-" + v
    decreases |w|
  {
    if w == [] {
      assert w + run + v == run + v;
      TrimStartAfterBlank(run, v);
      DashifyWithoutWhitespace(v);
    } else {
      assert (w + run + v)[1..] == w[1..] + run + v;
      DashifyRun(w[1..], run, v);
      assert [w[0]] + (w[1..] + "-" + v) == w + "-" + v;
    }
  }

  /** Trimming the start of a blank run followed by a string that does not
      start with white space leaves that string. */
  lemma {:induction false} TrimStartAfterBlank(run: string, v: string)
    requires Blank(run)
    requires v == [] || !IsWhitespace(v[0])
    ensures TrimStart(run + v) == v
    decreases |run|
  {
    if run != [] {
      assert (run + v)[1..] == run[1..] + v;
      TrimStartAfterBlank(run[1..], v);
    } else {
      assert run + v == v;
    }
  }

  /** The download name of image `index`: dashified prompt, "-icon-", the
      1-based number, ".png". */
  function DownloadFileName(prompt: string, index: nat): (r: string)
    ensures forall i :: 0 <= i < |r| ==> !IsWhitespace(r[i])
    ensures EndsWith(r, ".png")
  {
    var d := Dashify(prompt);
    var n := NatToString(index + 1);
    FileNameShape(d, n);
    d + "-icon-" + n + ".png"
  }

  /** Neither a digit nor a character of "-icon-" or ".png" is white
      space. */
  lemma SuffixUnspaced(n: string)
    requires AllDigits(n)
    ensures var t := "-icon-" + n + ".png"; forall i :: 0 <= i < |t| ==> !IsWhitespace(t[i])
  {
    var t := "-icon-" + n + ".png";
    forall i | 0 <= i < |t|
      ensures !IsWhitespace(t[i])
    {
      if i < 6 {
        assert t[i] == "-icon-"[i];
      } else if i < 6 + |n| {
        assert t[i] == n[i - 6];
      } else {
        assert t[i] == ".png"[i - 6 - |n|];
      }
    }
  }

  /** A name built from a string without white space and a digit string
      has no white space and ends in ".png". */
  lemma FileNameShape(d: string, n: string)
    requires forall i :: 0 <= i < |d| ==> !IsWhitespace(d[i])
    requires AllDigits(n)
    ensures var r := d + "-icon-" + n + ".png";
      (forall i :: 0 <= i < |r| ==> !IsWhitespace(r[i])) && EndsWith(r, ".png")
  {
    var t := "-icon-" + n + ".png";
    SuffixUnspaced(n);
    assert d + "-icon-" + n + ".png" == d + t;
    assert (d + t)[|d + t| - 4..] == ".png";
  }

  /** A prompt without white space is saved under itself, "-icon-", the
      1-based number and ".png"; so "Toys" at index 0 is saved as
      "Toys-icon-1.png". */
  lemma DownloadFileNameOfWord(w: string, index: nat)
    requires forall i :: 0 <= i < |w| ==> !IsWhitespace(w[i])
    ensures DownloadFileName(w, index) == w + "-icon-" + NatToString(index + 1) + ".png"
    ensures index < 9 ==> DownloadFileName(w, index) == w + "-icon-" + [DigitChar(index + 1)] + ".png"
  {
    DashifyWithoutWhitespace(w);
  }

  /** Two downloads of the same prompt never share a file name. */
  lemma DownloadFileNamesDistinct(prompt: string, i: nat, j: nat)
    requires i != j
    ensures DownloadFileName(prompt, i) != DownloadFileName(prompt, j)
  {
    var head := Dashify(prompt) + "-icon-";
    var a, b := NatToString(i + 1), NatToString(j + 1);
    if DownloadFileName(prompt, i) == DownloadFileName(prompt, j) {
      var x, y := head + a + ".png", head + b + ".png";
      assert x[|head|..|x| - 4] == a;
      assert y[|head|..|y| - 4] == b;
      NatToStringInjective(i + 1, j + 1);
    }
  }

  /** The alt text of image `index`: the prompt, " icon ", the 1-based
      number. */
  function AltText(prompt: string, index: nat): (r: string)
    ensures |prompt| < |r| && r[..|prompt|] == prompt
    ensures r[|prompt|..] == " icon " + NatToString(index + 1)
  {
    prompt + " icon " + NatToString(index + 1)
  }

  /** Different images of one grid have different alt texts. */
  lemma AltTextsDistinct(prompt: string, i: nat, j: nat)
    requires i != j
    ensures AltText(prompt, i) != AltText(prompt, j)
  {
    var head := prompt + " icon ";
    if AltText(prompt, i) == AltText(prompt, j) {
      assert AltText(prompt, i)[|head|..] == NatToString(i + 1);
      assert AltText(prompt, j)[|head|..] == NatToString(j + 1);
      NatToStringInjective(i + 1, j + 1);
    }
  }

  /** One download: fetch through the proxy, save under the file name, and
      open the original URL should that fail. */
  datatype DownloadStep = DownloadStep(proxyUrl: string, fileName: string, fallbackUrl: string)

  function StepFor(images: seq<string>, prompt: string, encode: string -> string, k: nat): DownloadStep
    requires k < |images|
  {
    DownloadStep(ProxyImageUrl(images[k], encode), DownloadFileName(prompt, k), images[k])
  }

  /** `handleDownloadAll`: the downloads in index order, one per image. */
  method DownloadAll(images: seq<string>, prompt: string, encode: string -> string)
    returns (steps: seq<DownloadStep>)
    ensures |steps| == |images|
    ensures forall k :: 0 <= k < |images| ==> steps[k] == StepFor(images, prompt, encode, k)
  {
    steps := [];
    var i := 0;
    while i < |images|
      invariant 0 <= i <= |images|
      invariant |steps| == i
      invariant forall k :: 0 <= k < i ==> steps[k] == StepFor(images, prompt, encode, k)
    {
      steps := steps + [StepFor(images, prompt, encode, i)];
      i := i + 1;
    }
  }

  /** The files "Download All" saves all have different names. */
  lemma DownloadAllNamesDistinct(images: seq<string>, prompt: string, encode: string -> string,
                                 steps: seq<DownloadStep>)
    requires |steps| == |images|
    requires forall k :: 0 <= k < |images| ==> steps[k] == StepFor(images, prompt, encode, k)
    ensures forall j, k :: 0 <= j < k < |steps| ==> steps[j].fileName != steps[k].fileName
  {
    forall j, k | 0 <= j < k < |steps|
      ensures steps[j].fileName != steps[k].fileName
    {
      DownloadFileNamesDistinct(prompt, j, k);
    }
  }
}
