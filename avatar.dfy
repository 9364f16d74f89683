/**
 * Avatar resolution for the share card: the ordered provider URLs tried for
 * a handle, the generated initials image used when they all fail or when
 * an export cannot inline the remote picture, the source the card shows,
 * and the name of the downloaded file.
 */
module Avatar {
  import opened Wrappers
  import opened JsText

  const Provider := "https://unavatar.io/"
  const XPrefix := Provider + "x/"
  const TwitterPrefix := Provider + "twitter/"
  /** Unavatar's default GitHub picture: the last network candidate, and what an empty candidate list shows. */
  const GhostUrl := Provider + "github/ghost"

  /** `avatarCandidates(handle)` */
  function Candidates(handle: string): (r: seq<string>)
    ensures |r| == CandidateCount(handle)
  {
    if handle == "" then []
    else
      var h := EncodeUriComponent(handle);
      [XPrefix + h, TwitterPrefix + h, Provider + h, GhostUrl]
  }

  predicate StartsWith(s: string, prefix: string)
  {
    |prefix| <= |s| && s[..|prefix|] == prefix
  }

  predicate EndsWith(s: string, suffix: string)
  {
    |suffix| <= |s| && s[|s| - |suffix|..] == suffix
  }

  /** `candidates.length` */
  function CandidateCount(handle: string): nat
  {
    if handle == "" then 0 else 4
  }

  lemma StartsWithAppend(p: string, b: string)
    ensures StartsWith(p + b, p)
  {
    assert (p + b)[..|p|] == p;
  }

  lemma EndsWithAppend(a: string, s: string)
    ensures EndsWith(a + s, s)
  {
    assert (a + s)[|a|..] == s;
  }

  /** Each URL starts at the provider; all but the last end in `h`. */
  lemma ProviderUrls(h: string, cs: seq<string>)
    requires cs == [XPrefix + h, TwitterPrefix + h, Provider + h, GhostUrl]
    ensures forall k :: 0 <= k < |cs| ==> StartsWith(cs[k], Provider)
    ensures forall k :: 0 <= k < |cs| - 1 ==> EndsWith(cs[k], h)
  {
    assert cs[0] == Provider + ("x/" + h);
    assert cs[1] == Provider + ("twitter/" + h);
    StartsWithAppend(Provider, "x/" + h);
    StartsWithAppend(Provider, "twitter/" + h);
    StartsWithAppend(Provider, h);
    StartsWithAppend(Provider, "github/ghost");
    EndsWithAppend(XPrefix, h);
    EndsWithAppend(TwitterPrefix, h);
    EndsWithAppend(Provider, h);
  }

  /**
   * No handle, no candidates; otherwise four provider URLs, the first three
   * ending in the encoded handle and the fourth the handle-independent ghost.
   */
  lemma CandidatesShape(handle: string)
    ensures Candidates(handle) == [] <==> handle == ""
    ensures |Candidates(handle)| == CandidateCount(handle)
    ensures handle != "" ==> Candidates(handle)[3] == GhostUrl
    ensures forall k :: 0 <= k < |Candidates(handle)| ==> StartsWith(Candidates(handle)[k], Provider)
    ensures forall k :: 0 <= k < |Candidates(handle)| - 1 ==> EndsWith(Candidates(handle)[k], EncodeUriComponent(handle))
  {
    if handle != "" {
      ProviderUrls(EncodeUriComponent(handle), Candidates(handle));
    }
  }

  /** The four candidates are four different URLs, so each step of the fallback chain requests something new. */
  lemma CandidatesDistinct(handle: string)
    requires handle != ""
    ensures forall k, l :: 0 <= k < l < |Candidates(handle)| ==> Candidates(handle)[k] != Candidates(handle)[l]
  {
    var h := EncodeUriComponent(handle);
    var cs := Candidates(handle);
    var n := |Provider|;
    assert cs[0][n] == 'x' && cs[1][n] == 't' && cs[3][n] == 'g';
    assert |cs[0]| == n + 2 + |h| && |cs[1]| == n + 8 + |h| && |cs[2]| == n + |h|;
    // The generic URL is not the ghost URL: "github/ghost" holds a '/', the encoded handle none.
    assert cs[3][n + 6] == '/';
    if |cs[2]| == |cs[3]| {
      assert cs[2][n + 6] == h[6];
    }
  }

  /** For a handle of letters, digits and `_` (an X handle), the first candidate holds the handle itself. */
  lemma CandidatesOfPlainHandle(handle: string)
    requires handle != ""
    requires forall k :: 0 <= k < |handle| ==> IsUnreserved(handle[k])
    ensures Candidates(handle)[0] == XPrefix + handle
  {
    EncodeUnreserved(handle);
  }

  /** `displayAvatarSrc = candidates[avatarIdx] || "https://unavatar.io/github/ghost"` */
  function DisplaySrc(candidates: seq<string>, idx: nat): (r: string)
    ensures r == GhostUrl || (idx < |candidates| && r == candidates[idx])
    ensures r != ""
  {
    if idx < |candidates| && candidates[idx] != "" then candidates[idx] else GhostUrl
  }

  /**
   * The card shows the candidate at the current index; only without a
   * handle (no candidates) does it show the ghost picture directly.
   */
  lemma DisplaySrcOfCandidates(handle: string, idx: nat)
    requires handle == "" || idx < 4
    ensures DisplaySrc(Candidates(handle), idx) == if handle == "" then GhostUrl else Candidates(handle)[idx]
  {
    if handle != "" {
      assert Candidates(handle)[idx] != "" by {
        CandidatesShape(handle);
        assert StartsWith(Candidates(handle)[idx], Provider);
      }
    }
  }

  /** `candidates[0] ? candidates[0] : displayAvatarSrc`: the picture an export tries to inline. */
  function ExportFetchUrl(candidates: seq<string>, display: string): (r: string)
    ensures r == display || (0 < |candidates| && r == candidates[0])
    ensures display != "" ==> r != ""
  {
    if |candidates| > 0 && candidates[0] != "" then candidates[0] else display
  }

  /**
   * An export always fetches the X picture of the handle, whichever
   * candidate the screen has fallen back to, and the ghost picture when
   * there is no handle.
   */
  lemma ExportFetchUrlOfHandle(handle: string, idx: nat)
    requires handle == "" || idx < 4
    ensures ExportFetchUrl(Candidates(handle), DisplaySrc(Candidates(handle), idx))
         == if handle == "" then GhostUrl else XPrefix + EncodeUriComponent(handle)
  {
    DisplaySrcOfCandidates(handle, 0);
    DisplaySrcOfCandidates(handle, idx);
  }

  /** `displayName || (handle ? `@${handle}` : "Brevis Learner")`: the name on the card and behind the initials. */
  function NameOnCard(displayName: string, handle: string): (r: string)
    ensures r != ""
  {
    if displayName != "" then displayName
    else if handle != "" then "@" + handle
    else DefaultName
  }

  /** `Brevis-IQ-${handle || "anon"}.png` */
  function DownloadName(handle: string): string
  {
    "Brevis-IQ-" + (if handle != "" then handle else "anon") + ".png"
  }

  /** The file name is the fixed prefix and suffix around the handle, or around "anon" when there is none. */
  lemma DownloadNameParts(handle: string)
    ensures var name := DownloadName(handle);
      StartsWith(name, "Brevis-IQ-") && EndsWith(name, ".png")
      && name[10..|name| - 4] == (if handle != "" then handle else "anon")
  {
  }

  // ---------------------------------------------------------------------------
  // Initials image

  /** The name shown, and used for the initials, when there is neither a display name nor a handle. */
  const DefaultFirstName := "Brevis"
  const DefaultLastName := "Learner"
  const DefaultName := DefaultFirstName + " " + DefaultLastName

  /** The text the initials are taken from: the name (or the default name), trimmed, without one leading `@`. */
  function InitialsText(nameLike: string): string
  {
    StripLeadingAt(Trim(if nameLike != "" then nameLike else DefaultName))
  }

  /** `parts[0] || "Brevis"` and `parts[1] || "IQ"` */
  function InitialWords(nameLike: string): (r: (string, string))
    ensures r.0 != [] && r.1 != []
  {
    var parts := Words(InitialsText(nameLike));
    assert |parts| > 1 ==> parts[1] != [];
    (if |parts| > 0 then parts[0] else "Brevis", if |parts| > 1 then parts[1] else "IQ")
  }

  /** `s[0] || fallback` for a string of characters. */
  function FirstChar(s: string, fallback: char): char
  {
    if s != [] then s[0] else fallback
  }

  /** `initials.toUpperCase()`: the two letters drawn on the fallback image. */
  function Initials(nameLike: string): (r: string)
    ensures |r| == 2 && !('a' <= r[0] <= 'z') && !('a' <= r[1] <= 'z')
  {
    var (first, second) := InitialWords(nameLike);
    ToUpper([FirstChar(first, 'B'), FirstChar(second, 'Q')])
  }

  /** The SVG document of the initials image up to its text, and after it. */
  const SvgHead := "<svg xmlns='http://www.w3.org/2000/svg' width='96' height='96'>\n"
    + "    <rect width='100%' height='100%' rx='16' ry='16' fill='#111827'/>\n"
    + "    <text x='50%' y='56%' text-anchor='middle' font-size='40'\n"
    + "      font-family='Inter, system-ui, -apple-system, Segoe UI, Roboto, Ubuntu, Cantarell, Noto Sans, sans-serif'\n"
    + "      fill='#a5b4fc'>"
  const SvgTail := "</text>\n  </svg>"

  /** The SVG document of the initials image, with the letters as its only text. */
  function InitialsSvg(initials: string): string
  {
    SvgHead + initials + SvgTail
  }

  const DataUrlPrefix := "data:image/svg+xml;utf8,"

  /**
   * An image source of the card: a URL (a provider URL, or the data URL an
   * export fetched), or `initialsDataUrl(name)`, the generated image of the
   * initials of `name`.
   */
  datatype ImageSrc = Url(url: string) | InitialsOf(name: string)

  /** The `src` string of an image source. */
  function Src(img: ImageSrc): string
  {
    match img
    case Url(u) => u
    case InitialsOf(n) => DataUrlPrefix + EncodeUriComponent(InitialsSvg(Initials(n)))
  }

  /** JavaScript truthiness of an image source: a URL is falsy only when empty; the initials image never is. */
  predicate Truthy(img: ImageSrc)
  {
    match img
    case Url(u) => u != ""
    case InitialsOf(_) => true
  }

  /** Truthiness is that of the `src` string. */
  lemma TruthyIffSrcNonEmpty(img: ImageSrc)
    ensures Truthy(img) <==> Src(img) != ""
  {
    if img.InitialsOf? {
      assert |Src(img)| >= |DataUrlPrefix|;
    }
  }

  /**
   * `exportAvatarSrc = avatarOverride || displayAvatarSrc`: a present,
   * truthy override wins; the initials image always does.
   */
  function ExportSrc(avatarOverride: Option<ImageSrc>, display: string): (r: ImageSrc)
    ensures avatarOverride.None? ==> r == Url(display)
    ensures avatarOverride.Some? && Truthy(avatarOverride.value) ==> r == avatarOverride.value
    ensures avatarOverride.Some? && avatarOverride.value.InitialsOf? ==> r == avatarOverride.value
    ensures r == Url(display) || (avatarOverride.Some? && r == avatarOverride.value)
  {
    if avatarOverride.Some? && Truthy(avatarOverride.value) then avatarOverride.value else Url(display)
  }

  /** The initials image is a local `data:` URL, never empty, and never one of the network candidates. */
  lemma InitialsImageIsLocal(name: string, handle: string)
    ensures var src := Src(InitialsOf(name));
      StartsWith(src, DataUrlPrefix) && src !in Candidates(handle) && src != GhostUrl
  {
    var src := Src(InitialsOf(name));
    assert src[..|DataUrlPrefix|] == DataUrlPrefix;
    assert src[0] == 'd';
    CandidatesShape(handle);
    forall k | 0 <= k < |Candidates(handle)| ensures Candidates(handle)[k] != src {
      assert Candidates(handle)[k][0] == 'h';
    }
    assert GhostUrl[0] == 'h';
  }

  /** A one-word name gives its first letter and the "I" of the default second word "IQ". */
  lemma InitialsOfOneWord(w: string)
    requires w != [] && ' ' !in w && w[0] != '@'
    requires !IsWhiteSpace(w[0]) && !IsWhiteSpace(w[|w| - 1])
    ensures Initials(w) == [UpperChar(w[0]), 'I']
  {
    TrimOfTrimmed(w);
    WordsOfWord(w);
  }

  /** A two-word name gives the first letter of each word. */
  lemma InitialsOfTwoWords(w1: string, w2: string)
    requires w1 != [] && w2 != [] && ' ' !in w1 && ' ' !in w2 && w1[0] != '@'
    requires !IsWhiteSpace(w1[0]) && !IsWhiteSpace(w2[|w2| - 1])
    ensures Initials(w1 + " " + w2) == [UpperChar(w1[0]), UpperChar(w2[0])]
  {
    var s := w1 + " " + w2;
    assert s[0] == w1[0] && s[|s| - 1] == w2[|w2| - 1];
    TrimOfTrimmed(s);
    WordsAtSpace(w1, w2);
    WordsOfWord(w1);
    WordsOfWord(w2);
  }

  /**
   * Without a display name the initials come from "@" + handle; for a
   * trimmed handle that does not itself start with `@` they are the
   * initials of the handle.
   */
  lemma InitialsOfHandle(handle: string)
    requires handle != [] && handle == Trim(handle) && handle[0] != '@'
    ensures Initials(NameOnCard("", handle)) == Initials(handle)
  {
    var _ := TrimIsSlice(handle);
    var s := "@" + handle;
    assert NameOnCard("", handle) == s;
    assert s[|s| - 1] == handle[|handle| - 1] && s[1..] == handle;
    TrimOfTrimmed(s);
    assert InitialsText(s) == handle;
    assert InitialsText(handle) == handle;
  }

  /** With no name at all the initials are those of "Brevis Learner". */
  lemma InitialsOfNoName()
    ensures Initials("") == "BL"
  {
    var w1, w2 := DefaultFirstName, DefaultLastName;
    assert w1[0] == 'B' && w2[0] == 'L' && w2[|w2| - 1] == 'r';
    InitialsOfTwoWords(w1, w2);
  }

  /** "Sanni Dev" gives "SD". */
  lemma InitialsOfSanniDev()
    ensures Initials("Sanni Dev") == "SD"
  {
    var w1, w2 := "Sanni", "Dev";
    assert w1[0] == 'S' && w2[0] == 'D' && w2[|w2| - 1] == 'v';
    InitialsOfTwoWords(w1, w2);
    assert w1 + " " + w2 == "Sanni Dev";
  }

  /** "@x" gives "XI": the `@` is dropped and the one word gets the default second initial. */
  lemma InitialsOfAtX()
    ensures Initials("@x") == "XI"
  {
    var w := "x";
    assert Trim(w) == w by { TrimOfTrimmed(w); }
    InitialsOfHandle(w);
    InitialsOfOneWord(w);
    assert NameOnCard("", w) == "@x";
  }

  /**
   * A handle typed with its own `@` is kept: the card name is "@@x", and only
   * one `@` is removed before the initials are taken, so the image shows "@I"
   * while the initials of the handle itself are "XI".
   */
  lemma InitialsOfHandleWithAt()
    ensures NameOnCard("", "@x") == "@@x"
    ensures Initials(NameOnCard("", "@x")) == "@I" && Initials("@x") == "XI"
  {
    var s := "@@x";
    assert NameOnCard("", "@x") == s;
    TrimOfTrimmed(s);
    assert InitialsText(s) == "@x";
    WordsOfWord("@x");
    InitialsOfAtX();
  }

  /** "@" alone gives "BI": nothing is left after the `@`, so both default words are used. */
  lemma InitialsOfBareAt()
    ensures Initials("@") == "BI"
  {
    TrimOfTrimmed("@");
    assert InitialsText("@") == "";
    WordsOfWord("");
  }


  // ---------------------------------------------------------------------------
  // The initials as the source computes them, over UTF-16 code units

  /** The UTF-16 code units of one character. */
  function Utf16(c: char): (units: seq<nat>)
    ensures |units| == 1 <==> (c as int) < 0x10000
  {
    var n := c as int;
    if n < 0x10000 then [n]
    else [0xD800 + (n - 0x10000) / 0x400, 0xDC00 + (n - 0x10000) % 0x400]
  }

  predicate IsSurrogate(unit: nat)
  {
    0xD800 <= unit <= 0xDFFF
  }

  /** `s[0]` in JavaScript: the first UTF-16 code unit of a non-empty string. */
  function FirstCodeUnit(s: string): nat
    requires s != []
  {
    Utf16(s[0])[0]
  }

  /**
   * `initialsDataUrl(nameLike)` as written: `first[0]` and `second[0]` are
   * code units, so a word starting with a character outside the Basic
   * Multilingual Plane contributes a lone surrogate, on which
   * `encodeURIComponent` throws a URIError (None). Otherwise the code unit is
   * the character, and the image is the initials image of the name.
   */
  function InitialsDataUrlAsWritten(nameLike: string): (r: Option<ImageSrc>)
    ensures var (first, second) := InitialWords(nameLike);
      r.None? <==> (first[0] as int) >= 0x10000 || (second[0] as int) >= 0x10000
  {
    var (first, second) := InitialWords(nameLike);
    if IsSurrogate(FirstCodeUnit(first)) || IsSurrogate(FirstCodeUnit(second)) then None
    else Some(InitialsOf(nameLike))
  }

  /**
   * A name whose first word starts outside the Basic Multilingual Plane gets
   * no initials image from the code as written, while the initials taken by
   * character are that character and the initial of the second word.
   */
  lemma AsWrittenFailsOnAstralWord(w1: string, w2: string)
    requires w1 != [] && w2 != [] && ' ' !in w1 && ' ' !in w2 && w1[0] != '@'
    requires !IsWhiteSpace(w1[0]) && !IsWhiteSpace(w2[|w2| - 1])
    requires (w1[0] as int) >= 0x10000
    ensures InitialsDataUrlAsWritten(w1 + " " + w2).None?
    ensures Initials(w1 + " " + w2) == [w1[0], UpperChar(w2[0])]
  {
    InitialsOfTwoWords(w1, w2);
  }

  /** "🚀 Dev": the code as written throws; the initials by character are the rocket and "D". */
  lemma EmojiNameBreaksInitials()
    ensures InitialsDataUrlAsWritten("\U{1F680} Dev").None?
    ensures Initials("\U{1F680} Dev") == "\U{1F680}D"
  {
    AsWrittenFailsOnAstralWord("\U{1F680}", "Dev");
    assert "\U{1F680}" + " " + "Dev" == "\U{1F680} Dev";
  }
}
