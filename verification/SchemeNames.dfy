/** The normal spelling of the colour scheme and mode a user chooses. */
module SchemeNames {
  import opened Wrappers
  import opened ConfigCache

  /** The names the colour generator understands. */
  predicate IsKnown(s: string) {
    || s == "scheme-content" || s == "scheme-expressive" || s == "scheme-fidelity"
    || s == "scheme-fruit-salad" || s == "scheme-monochrome" || s == "scheme-neutral"
    || s == "scheme-rainbow" || s == "scheme-tonal-spot" || s == "scheme-vibrant"
  }

  /** The known name that a short one stands for. */
  function FromAlias(s: string): (known: Option<string>)
    ensures known.Some? ==> IsKnown(known.value)
  {
    if s == "content" then Some("scheme-content")
    else if s == "expressive" then Some("scheme-expressive")
    else if s == "fidelity" || s == "faithful" then Some("scheme-fidelity")
    else if s == "fruit-salad" || s == "fruitsalad" then Some("scheme-fruit-salad")
    else if s == "monochrome" then Some("scheme-monochrome")
    else if s == "neutral" then Some("scheme-neutral")
    else if s == "rainbow" then Some("scheme-rainbow")
    else if s == "tonal-spot" || s == "tonal_spot" then Some("scheme-tonal-spot")
    else if s == "vibrant" then Some("scheme-vibrant")
    else None
  }

  predicate IsSpace(c: char) {
    c == ' ' || '\t' <= c <= '\r'
  }

  function LowerChar(c: char): char {
    if 'A' <= c <= 'Z' then c + 32 as char else c
  }

  function Lower(s: string): (r: string)
    ensures |r| == |s| && forall i :: 0 <= i < |s| ==> r[i] == LowerChar(s[i])
  {
    if s == "" then "" else [LowerChar(s[0])] + Lower(s[1..])
  }

  function TrimmedLeft(s: string): string {
    if s != "" && IsSpace(s[0]) then TrimmedLeft(s[1..]) else s
  }

  function TrimmedRight(s: string): string {
    if s != "" && IsSpace(s[|s| - 1]) then TrimmedRight(s[..|s| - 1]) else s
  }

  function Folded(raw: string): string {
    Lower(TrimmedRight(TrimmedLeft(raw)))
  }

  /** The source asks whether the first four characters are the three of `m3-`. */
  function Stripped(s: string): string {
    if |s| > 4 && s[..4] == "m3-" then s[4..] else s
  }

  /** `normalize_matugen_scheme`; a name nobody knows becomes the first scheme. */
  function NormalScheme(raw: string): (known: string)
    ensures IsKnown(known)
  {
    var s := Folded(raw);
    if IsKnown(s) then s
    else
      var short := Stripped(s);
      var alias := FromAlias(short);
      if alias.Some? then alias.value else if IsKnown(short) then short else "scheme-content"
  }

  /** `normalize_matugen_mode` */
  function NormalMode(raw: string): string {
    var s := Folded(raw);
    if s == "light" || s == "auto" then s else "dark"
  }

  /** Lower case, and no space at either end. */
  ghost predicate Plain(s: string) {
    && s != "" && !IsSpace(s[0]) && !IsSpace(s[|s| - 1])
    && forall i :: 0 <= i < |s| ==> LowerChar(s[i]) == s[i]
  }

  lemma PlainIsFolded(s: string)
    requires Plain(s)
    ensures Folded(s) == s
  {
    assert TrimmedLeft(s) == s && TrimmedRight(s) == s;
  }

  lemma KnownIsPlain(s: string)
    requires IsKnown(s)
    ensures Plain(s)
  {
  }

  lemma ModesArePlain()
    ensures Plain("light") && Plain("auto") && Plain("dark")
  {
  }

  /** The normal spelling is its own normal spelling. */
  lemma NormalTwice(scheme: string, mode: string)
    ensures NormalScheme(NormalScheme(scheme)) == NormalScheme(scheme)
    ensures NormalMode(NormalMode(mode)) == NormalMode(mode)
  {
    hide Folded, IsKnown, FromAlias;
    KnownIsPlain(NormalScheme(scheme));
    PlainIsFolded(NormalScheme(scheme));
    ModesArePlain();
    PlainIsFolded(NormalMode(mode));
  }

  function SchemeName(raw: string): Name {
    Name(raw, NormalScheme(raw))
  }

  function ModeName(raw: string): Name {
    Name(raw, NormalMode(raw))
  }

  /** The names of the configuration cache behave as these do: respelling one gives the name that its
      normal spelling is. */
  lemma RespelledNames(scheme: string, mode: string)
    ensures Normal(SchemeName(scheme)) == SchemeName(NormalScheme(scheme))
    ensures Normal(ModeName(mode)) == ModeName(NormalMode(mode))
  {
    hide NormalScheme, NormalMode;
    NormalTwice(scheme, mode);
  }

  // ---------------------------------------------------------------------------------------------
  // The prefix that is meant to be stripped
  // ---------------------------------------------------------------------------------------------

  /** Four characters are never three. */
  lemma NothingIsStripped(s: string)
    ensures Stripped(s) == s
  {
    if |s| > 4 {
      assert |s[..4]| == 4 && |"m3-"| == 3;
    }
  }

  lemma NoNameStarts(s: string)
    requires |s| >= 3 && s[..3] == "m3-"
    ensures !IsKnown(s) && FromAlias(s) == None
  {
    assert s[1] == s[..3][1] == '3';
  }

  /** A `m3-` prefix is not stripped: whatever follows it, the first scheme is taken. */
  lemma PrefixedNamesAreLost(raw: string)
    requires |Folded(raw)| >= 3 && Folded(raw)[..3] == "m3-"
    ensures NormalScheme(raw) == "scheme-content"
  {
    hide Folded, IsKnown, FromAlias, Stripped;
    NothingIsStripped(Folded(raw));
    NoNameStarts(Folded(raw));
  }

  lemma {:induction false} TrimmingStops(s: string, n: nat)
    requires 0 < n <= |s| && !IsSpace(s[n - 1])
    ensures |TrimmedRight(s)| >= n && TrimmedRight(s)[..n] == s[..n]
    decreases |s|
  {
    if IsSpace(s[|s| - 1]) {
      TrimmingStops(s[..|s| - 1], n);
      assert s[..|s| - 1][..n] == s[..n];
    }
  }

  lemma PrefixSurvivesFolding(s: string)
    ensures |Folded("m3-" + s)| >= 3 && Folded("m3-" + s)[..3] == "m3-"
  {
    var raw := "m3-" + s;
    hide TrimmedRight, Lower;
    assert TrimmedLeft(raw) == raw;
    TrimmingStops(raw, 3);
    var trimmed := TrimmedRight(raw);
    forall i | 0 <= i < 3
      ensures Lower(trimmed)[i] == "m3-"[i]
    {
      assert trimmed[i] == trimmed[..3][i] == raw[..3][i] == raw[i] == "m3-"[i];
    }
    assert |Lower(trimmed)| == |trimmed|;
  }

  /** So the prefix makes no difference exactly where the first scheme was meant anyway. */
  lemma PrefixIsHarmlessExactlyWhen(s: string)
    ensures NormalScheme("m3-" + s) == NormalScheme(s) <==> NormalScheme(s) == "scheme-content"
  {
    hide NormalScheme, Folded;
    PrefixSurvivesFolding(s);
    PrefixedNamesAreLost("m3-" + s);
  }

  lemma VibrantIsAnAlias()
    ensures !IsKnown("vibrant") && FromAlias("vibrant") == Some("scheme-vibrant") && Plain("vibrant")
  {
  }

  lemma AVibrantNameIsLost()
    ensures NormalScheme("vibrant") == "scheme-vibrant" && NormalScheme("m3-vibrant") == "scheme-content"
  {
    hide Folded, IsKnown, FromAlias, Stripped, Plain;
    VibrantIsAnAlias();
    PlainIsFolded("vibrant");
    NothingIsStripped("vibrant");
    PrefixSurvivesFolding("vibrant");
    assert "m3-" + "vibrant" == "m3-vibrant";
    PrefixedNamesAreLost("m3-vibrant");
  }
}
