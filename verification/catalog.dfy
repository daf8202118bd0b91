/** The fixed table of five style presets and the lookup by id
    (`STYLE_PRESETS` and `getStyleById`). */
module Catalog {
  import opened Results
  import opened Text

  /** One visual style: its id, display name, one-line description, and the
      descriptive fragment injected into every prompt of that style. */
  datatype StylePreset = StylePreset(id: int, name: string, description: string, promptModifier: string)

  /** Each preset's prompt modifier is a comma-separated list of phrases;
      the phrases are kept as a list so that the colour rewriting can be
      followed phrase by phrase. Long phrases are written in pieces. */
  const GradientLineArtPhrases: seq<string> := [
    "clean flat vector icon",
    "soft pastel gradient fill from " + "lavender purple to " + "soft pink to cream yellow",
    "thin dark gray outline stroke",
    "simple flat 2D illustration",
    "smooth soft color transitions",
    "solid light gray " + "rounded rectangle background",
    "centered single object",
    "cute minimal vector illustration style",
    "no shadows",
    "no 3D effects",
    "muted pastel colors",
    "simple shapes"
  ]

  const GradientLineArt := StylePreset(
    1,
    "Gradient Line Art",
    "Clean line art with pink-purple-yellow gradient fill",
    Join(GradientLineArtPhrases, ", "))

  const PlayfulBubblePhrases: seq<string> := [
    "cute colorful doodle icon",
    "soft " + "purple-blue" + " circular bubble background",
    "small yellow stars " + "and dots decorations around",
    "playful cartoon style",
    "vibrant colors",
    "hand-drawn feel",
    "whimsical illustration",
    "centered composition",
    "cheerful and fun aesthetic"
  ]

  const PlayfulBubble := StylePreset(
    2,
    "Playful Bubble",
    "Colorful doodle style with circular bubble background and stars",
    Join(PlayfulBubblePhrases, ", "))

  const WhimsicalCloudsPhrases: seq<string> := [
    "cute whimsical icon " + "with small white clouds",
    "soft " + "pastel mint and pink" + " colors",
    "small stars scattered around",
    "dreamy illustration style",
    "gentle colors",
    "kawaii aesthetic",
    "light airy feel",
    "adorable cartoon style",
    "white background " + "with decorative elements"
  ]

  const WhimsicalClouds := StylePreset(
    3,
    "Whimsical Clouds",
    "Cute illustrated style with clouds and pastel colors",
    Join(WhimsicalCloudsPhrases, ", "))

  const Glossy3DPhrases: seq<string> := [
    "glossy 3D rendered icon",
    "shiny " + "blue plastic material",
    "cyan and blue gradient",
    "strong specular highlights",
    "reflective surface",
    "modern 3D style",
    "clean white background",
    "professional app icon look",
    "smooth rounded form",
    "single object"
  ]

  const Glossy3D := StylePreset(
    4,
    "Glossy 3D",
    "Shiny blue plastic 3D look with reflections",
    Join(Glossy3DPhrases, ", "))

  const CircleBadgePhrases: seq<string> := [
    "flat minimal icon",
    "white silhouette on " + "dark teal green" + " circular background",
    "badge style",
    "simple flat design",
    "no gradients on icon",
    "solid circle background",
    "minimal details",
    "clean vector style",
    "logo icon aesthetic",
    "centered white shape on colored circle"
  ]

  const CircleBadge := StylePreset(
    5,
    "Circle Badge",
    "White silhouette icon inside dark teal circular badge",
    Join(CircleBadgePhrases, ", "))

  /** `STYLE_PRESETS`, in table order; it is also the body of `GET /api/styles`. */
  const Presets: seq<StylePreset> := [GradientLineArt, PlayfulBubble, WhimsicalClouds, Glossy3D, CircleBadge]

  /** `presets.find(style => style.id === id)`: the first preset carrying
      `id`, or nothing when none does. */
  function Find(presets: seq<StylePreset>, id: int): (r: Option<StylePreset>)
    ensures r.None? <==> forall k :: 0 <= k < |presets| ==> presets[k].id != id
    ensures r.Some? ==> exists k :: 0 <= k < |presets| && presets[k] == r.value && r.value.id == id
                                    && forall j :: 0 <= j < k ==> presets[j].id != id
    decreases |presets|
  {
    if presets == [] then None
    else if presets[0].id == id then Some(presets[0])
    else
      var r := Find(presets[1..], id);
      assert forall k :: 1 <= k < |presets| ==> presets[k] == presets[1..][k - 1];
      r
  }

  /** `getStyleById`: ids 1 to 5 find their preset, every other id finds
      nothing. */
  function GetStyleById(id: int): (r: Option<StylePreset>)
    ensures r.Some? <==> 1 <= id <= 5
    ensures r.Some? ==> r.value.id == id && r.value == Presets[id - 1]
  {
    assert 1 <= id <= 5 ==> Presets[id - 1].id == id;
    Find(Presets, id)
  }

  /** The table has five entries whose ids are 1 to 5 in order, so no two
      share an id. */
  lemma PresetIds()
    ensures |Presets| == 5
    ensures forall k :: 0 <= k < |Presets| ==> Presets[k].id == k + 1
    ensures forall j, k :: 0 <= j < k < |Presets| ==> Presets[j].id != Presets[k].id
  {
  }
}
