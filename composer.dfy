/** The prompt composer: the user's feature selections become an ordered list
    of clauses, which are joined into one natural-language prompt. */
module Composer {
  import opened Numerals
  import opened Strings

  /** The selections of one submission: five toggles, five slider values and
      the chosen style. The stair width is in centimetres. */
  datatype Selections = Selections(
    daylight: bool,
    plants: bool,
    wood: bool,
    lounge: bool,
    acoustics: bool,
    lux: nat,
    greenery: nat,
    stairWidthCm: nat,
    noiseLevel: nat,
    woodPct: nat,
    style: string)

  /** The options of the style select box, `"None"` first. */
  const StyleOptions: seq<string> :=
    ["None", "pastel-mix-lora", "modern-architecture-lora", "interior-studio-lora"]

  const NoStyle: string := "None"

  /** The slider ranges and the select box options: what the form can produce.
      The composer itself is total and needs none of this. */
  predicate InRange(s: Selections) {
    100 <= s.lux <= 1000 &&
    0 <= s.greenery <= 100 &&
    50 <= s.stairWidthCm <= 300 &&
    20 <= s.noiseLevel <= 70 &&
    0 <= s.woodPct <= 100 &&
    s.style in StyleOptions
  }

  /** One clause of the prompt, with the value it interpolates. */
  datatype Clause =
    | Daylight(lux: nat)
    | Plants(coverage: nat)
    | Wood(coverage: nat)
    | Lounge
    | Acoustics(noise: nat)
    | Staircase(widthCm: nat)
    | Realism
    | StyleHint(style: string)

  /** The fixed position of each kind of clause in every prompt. */
  function Rank(c: Clause): (r: nat)
    ensures r < 8
  {
    match c
    case Daylight(_) => 0
    case Plants(_) => 1
    case Wood(_) => 2
    case Lounge => 3
    case Acoustics(_) => 4
    case Staircase(_) => 5
    case Realism => 6
    case StyleHint(_) => 7
  }

  const Separator: string := ", "
  const StylePrefix: string := "style hint: "

  // The phrases of the clauses. Phrases longer than a few dozen characters
  // are written as two literals only to help the prover, which handles short
  // literals much more cheaply; the string is the same.
  const DaylightLead: string := "soft natural daylight filtering " + "through large windows, "
  const PlantsLead: string := "indoor plants with "
  const PlantsTail: string := "% area coverage"
  const WoodLead: string := "natural wood surfaces covering "
  const LoungePhrase: string := "relaxation lounge with soft seating " + "and calm textures"
  const AcousticsLead: string := "acoustic panels reducing noise to "
  const StaircaseLead: string := "central staircase with width "
  const StaircaseTail: string := "m to promote movement"
  const RealismPhrase: string := "ultra realistic, " + "architectural interior photography"

  /** The text of a clause. */
  function Text(c: Clause): string
  {
    match c
    case Daylight(lux) => DaylightLead + NatToString(lux) + " lux"
    case Plants(g) => PlantsLead + NatToString(g) + PlantsTail
    case Wood(p) => WoodLead + NatToString(p) + "%"
    case Lounge => LoungePhrase
    case Acoustics(db) => AcousticsLead + NatToString(db) + " dB"
    case Staircase(cm) => StaircaseLead + WidthToString(cm) + StaircaseTail
    case Realism => RealismPhrase
    case StyleHint(style) => StylePrefix + ReplaceHyphens(style)
  }

  /** How many kinds of clause there are. */
  const ClauseKinds: nat := 8

  /** The clause of rank `k` built from `s`, with the condition under which the
      form includes it: daylight, plants, wood, lounge, acoustics, staircase,
      realism, style hint. */
  function Candidate(s: Selections, k: nat): (r: (bool, Clause))
    requires k < ClauseKinds
    ensures Rank(r.1) == k
  {
    if k == 0 then (s.daylight, Daylight(s.lux))
    else if k == 1 then (s.plants, Plants(s.greenery))
    else if k == 2 then (s.wood, Wood(s.woodPct))
    else if k == 3 then (s.lounge, Lounge)
    else if k == 4 then (s.acoustics, Acoustics(s.noiseLevel))
    else if k == 5 then (true, Staircase(s.stairWidthCm))
    else if k == 6 then (true, Realism)
    else (s.style != NoStyle, StyleHint(s.style))
  }

  /** The included clauses among the first `k` candidates, in rank order. */
  function ClausesUpTo(s: Selections, k: nat): (r: seq<Clause>)
    requires k <= ClauseKinds
    ensures |r| <= k
  {
    if k == 0 then []
    else if Candidate(s, k - 1).0 then ClausesUpTo(s, k - 1) + [Candidate(s, k - 1).1]
    else ClausesUpTo(s, k - 1)
  }

  /** The reference definition of the clause list: every candidate whose
      condition holds, in rank order. */
  function Clauses(s: Selections): seq<Clause>
  {
    ClausesUpTo(s, ClauseKinds)
  }

  function Render(cs: seq<Clause>): (r: seq<string>)
    ensures |r| == |cs| && forall i :: 0 <= i < |cs| ==> r[i] == Text(cs[i])
  {
    seq(|cs|, i requires 0 <= i < |cs| => Text(cs[i]))
  }

  /** The prompt the composer produces for `s`. */
  function Prompt(s: Selections): string
  {
    Join(Render(Clauses(s)), Separator)
  }

  /** How many of the five toggles are on. */
  function EnabledToggles(s: Selections): (n: nat)
    ensures n <= 5
  {
    (if s.daylight then 1 else 0) + (if s.plants then 1 else 0) + (if s.wood then 1 else 0) +
    (if s.lounge then 1 else 0) + (if s.acoustics then 1 else 0)
  }

  /** Builds the prompt as the form does: start from no clauses, append the
      clause of each enabled toggle in turn, then the staircase and realism
      clauses, then the style hint when a style is chosen, and join with ", ".
      The ghost lines record that after step k `parts` holds the texts of the
      included clauses among the first k candidates. */
  method ComposePrompt(s: Selections) returns (prompt: string)
    ensures prompt == Join(Render(Clauses(s)), Separator)
  {
    var parts: seq<string> := [];
    if s.daylight {
      RenderSnoc(ClausesUpTo(s, 0), Daylight(s.lux));
      parts := parts + [Text(Daylight(s.lux))];
    }
    assert parts == Render(ClausesUpTo(s, 1));
    if s.plants {
      RenderSnoc(ClausesUpTo(s, 1), Plants(s.greenery));
      parts := parts + [Text(Plants(s.greenery))];
    }
    assert parts == Render(ClausesUpTo(s, 2));
    if s.wood {
      RenderSnoc(ClausesUpTo(s, 2), Wood(s.woodPct));
      parts := parts + [Text(Wood(s.woodPct))];
    }
    assert parts == Render(ClausesUpTo(s, 3));
    if s.lounge {
      RenderSnoc(ClausesUpTo(s, 3), Lounge);
      parts := parts + [Text(Lounge)];
    }
    assert parts == Render(ClausesUpTo(s, 4));
    if s.acoustics {
      RenderSnoc(ClausesUpTo(s, 4), Acoustics(s.noiseLevel));
      parts := parts + [Text(Acoustics(s.noiseLevel))];
    }
    assert parts == Render(ClausesUpTo(s, 5));
    RenderSnoc(ClausesUpTo(s, 5), Staircase(s.stairWidthCm));
    parts := parts + [Text(Staircase(s.stairWidthCm))];
    assert parts == Render(ClausesUpTo(s, 6));
    RenderSnoc(ClausesUpTo(s, 6), Realism);
    parts := parts + [Text(Realism)];
    assert parts == Render(ClausesUpTo(s, 7));
    if s.style != NoStyle {
      RenderSnoc(ClausesUpTo(s, 7), StyleHint(s.style));
      parts := parts + [Text(StyleHint(s.style))];
    }
    assert parts == Render(ClausesUpTo(s, 8));
    prompt := Join(parts, Separator);
  }

  /** Appending one clause appends its text. */
  lemma RenderSnoc(cs: seq<Clause>, c: Clause)
    ensures Render(cs + [c]) == Render(cs) + [Text(c)]
  {
  }

  // ---------------------------------------------------------------------------
  // Properties of the clause list

  /** A clause is among the first `k` included ones exactly when some candidate
      of rank below `k` carries it and is included. */
  lemma {:induction false} UpToMembership(s: Selections, k: nat, c: Clause)
    requires k <= ClauseKinds
    ensures c in ClausesUpTo(s, k) <==> exists j :: 0 <= j < k && Candidate(s, j).0 && Candidate(s, j).1 == c
  {
    if k > 0 {
      UpToMembership(s, k - 1, c);
    }
  }

  predicate RankIncreasing(cs: seq<Clause>) {
    forall i, j :: 0 <= i < j < |cs| ==> Rank(cs[i]) < Rank(cs[j])
  }

  /** The first `k` included clauses have ranks below `k`, strictly increasing. */
  lemma {:induction false} UpToOrdered(s: Selections, k: nat)
    requires k <= ClauseKinds
    ensures RankIncreasing(ClausesUpTo(s, k))
    ensures forall i :: 0 <= i < |ClausesUpTo(s, k)| ==> Rank(ClausesUpTo(s, k)[i]) < k
  {
    if k > 0 {
      UpToOrdered(s, k - 1);
    }
  }

  /** Clauses always appear in the fixed order daylight, plants, wood, lounge,
      acoustics, staircase, realism, style hint: a disabled clause is left out,
      and the others are never reordered. */
  lemma ClausesOrdered(s: Selections)
    ensures RankIncreasing(Clauses(s))
  {
    UpToOrdered(s, ClauseKinds);
  }

  /** Every clause of the prompt is the candidate of its rank, built from the
      selected value and included because its condition holds. */
  lemma ClausesCarryValues(s: Selections)
    ensures forall c :: c in Clauses(s) ==> Candidate(s, Rank(c)).0 && Candidate(s, Rank(c)).1 == c
  {
    forall c | c in Clauses(s)
      ensures Candidate(s, Rank(c)).0 && Candidate(s, Rank(c)).1 == c
    {
      UpToMembership(s, ClauseKinds, c);
    }
  }

  predicate HasKind(cs: seq<Clause>, rank: nat) {
    exists i :: 0 <= i < |cs| && Rank(cs[i]) == rank
  }

  /** A clause of a kind is present exactly when the candidate of that rank is included. */
  lemma PresentIffIncluded(s: Selections, r: nat)
    requires r < ClauseKinds
    ensures HasKind(Clauses(s), r) <==> Candidate(s, r).0
  {
    var cs := Clauses(s);
    if HasKind(cs, r) {
      var i :| 0 <= i < |cs| && Rank(cs[i]) == r;
      UpToMembership(s, ClauseKinds, cs[i]);
    }
    if Candidate(s, r).0 {
      UpToMembership(s, ClauseKinds, Candidate(s, r).1);
      var i :| 0 <= i < |cs| && cs[i] == Candidate(s, r).1;
    }
  }

  /** Each toggle's clause is present exactly when the toggle is on, the style
      hint exactly when a style is chosen, and the staircase and realism clauses
      always. */
  lemma ClausePresence(s: Selections)
    ensures HasKind(Clauses(s), 0) <==> s.daylight
    ensures HasKind(Clauses(s), 1) <==> s.plants
    ensures HasKind(Clauses(s), 2) <==> s.wood
    ensures HasKind(Clauses(s), 3) <==> s.lounge
    ensures HasKind(Clauses(s), 4) <==> s.acoustics
    ensures HasKind(Clauses(s), 5) && HasKind(Clauses(s), 6)
    ensures HasKind(Clauses(s), 7) <==> s.style != NoStyle
  {
    PresentIffIncluded(s, 0);
    PresentIffIncluded(s, 1);
    PresentIffIncluded(s, 2);
    PresentIffIncluded(s, 3);
    PresentIffIncluded(s, 4);
    PresentIffIncluded(s, 5);
    PresentIffIncluded(s, 6);
    PresentIffIncluded(s, 7);
  }

  /** The clause list, spelled out: the clauses of the enabled toggles, then the
      staircase and the realism clause, then the style hint if a style is chosen. */
  lemma ClausesShape(s: Selections)
    ensures |ClausesUpTo(s, 5)| == EnabledToggles(s)
    ensures Clauses(s) == ClausesUpTo(s, 5) + [Staircase(s.stairWidthCm), Realism] +
      (if s.style != NoStyle then [StyleHint(s.style)] else [])
  {
    ToggleCount(s);
    var toggles := ClausesUpTo(s, 5);
    var fixed := toggles + [Staircase(s.stairWidthCm), Realism];
    assert ClausesUpTo(s, 6) == toggles + [Staircase(s.stairWidthCm)];
    assert ClausesUpTo(s, 7) == fixed;
    assert Clauses(s) == fixed + (if s.style != NoStyle then [StyleHint(s.style)] else []);
  }

  /** One toggle clause per enabled toggle. */
  lemma ToggleCount(s: Selections)
    ensures |ClausesUpTo(s, 5)| == EnabledToggles(s)
  {
    assert |ClausesUpTo(s, 1)| == (if s.daylight then 1 else 0);
    assert |ClausesUpTo(s, 2)| == |ClausesUpTo(s, 1)| + (if s.plants then 1 else 0);
    assert |ClausesUpTo(s, 3)| == |ClausesUpTo(s, 2)| + (if s.wood then 1 else 0);
    assert |ClausesUpTo(s, 4)| == |ClausesUpTo(s, 3)| + (if s.lounge then 1 else 0);
  }

  /** Two clauses for the staircase and realism phrase, one per enabled toggle,
      and one more when a style is chosen. */
  lemma ClauseCount(s: Selections)
    ensures |Clauses(s)| == 2 + EnabledToggles(s) + (if s.style != NoStyle then 1 else 0)
  {
    ClausesShape(s);
  }

  /** The staircase clause comes right after the toggle clauses, and the realism
      clause right after it. */
  lemma StaircaseThenRealism(s: Selections)
    ensures EnabledToggles(s) + 1 < |Clauses(s)|
    ensures Clauses(s)[EnabledToggles(s)] == Staircase(s.stairWidthCm)
    ensures Clauses(s)[EnabledToggles(s) + 1] == Realism
  {
    ClausesShape(s);
  }

  /** The last clause is the style hint when a style is chosen, else the realism clause. */
  lemma LastClause(s: Selections)
    ensures Clauses(s) != []
    ensures Clauses(s)[|Clauses(s)| - 1] == if s.style != NoStyle then StyleHint(s.style) else Realism
  {
    ClausesShape(s);
  }

  // ---------------------------------------------------------------------------
  // Properties of the prompt text

  /** Only the style hint clause starts with the style hint prefix. */
  lemma OnlyStyleHintHasPrefix(c: Clause)
    ensures StartsWith(Text(c), StylePrefix) <==> c.StyleHint?
  {
    var t := Text(c);
    // each other phrase differs from "style hint: " in its first or second character
    match c
    case Daylight(lux) => assert t[1] == DaylightLead[1] == 'o';
    case Plants(g) => assert t[0] == PlantsLead[0] == 'i';
    case Wood(p) => assert t[0] == WoodLead[0] == 'n';
    case Lounge => assert t[0] == LoungePhrase[0] == 'r';
    case Acoustics(db) => assert t[0] == AcousticsLead[0] == 'a';
    case Staircase(cm) => assert t[0] == StaircaseLead[0] == 'c';
    case Realism => assert t[0] == RealismPhrase[0] == 'u';
    case StyleHint(style) => assert t[..|StylePrefix|] == StylePrefix;
  }

  /** Without a style no clause of the prompt is a style hint and the prompt
      ends with the realism phrase. */
  lemma NoStyleNoHint(s: Selections)
    requires s.style == NoStyle
    ensures forall i :: 0 <= i < |Render(Clauses(s))| ==> !StartsWith(Render(Clauses(s))[i], StylePrefix)
    ensures EndsWith(Prompt(s), RealismPhrase)
  {
    var cs := Clauses(s);
    PresentIffIncluded(s, 7);
    forall i | 0 <= i < |cs|
      ensures !StartsWith(Render(cs)[i], StylePrefix)
    {
      assert Rank(cs[i]) != 7;
      OnlyStyleHintHasPrefix(cs[i]);
    }
    LastClause(s);
    JoinEndsWith(Render(cs), Separator);
  }

  /** With a style the prompt ends in the style hint: the prefix and the style
      name with every hyphen turned into a space. */
  lemma StyleHintLast(s: Selections)
    requires s.style != NoStyle
    ensures EndsWith(Prompt(s), StylePrefix + ReplaceHyphens(s.style))
    ensures '-' !in ReplaceHyphens(s.style)
    ensures |ReplaceHyphens(s.style)| == |s.style|
  {
    LastClause(s);
    JoinEndsWith(Render(Clauses(s)), Separator);
    ReplaceHyphensSpec(s.style);
  }

  ghost predicate Contains(s: string, t: string) {
    exists k :: OccursAt(t, s, k)
  }

  /** A piece of a clause's text occurs in the prompt of any selections that
      include the clause. */
  lemma PieceInPrompt(s: Selections, c: Clause, piece: string, k: nat)
    requires c in Clauses(s) && OccursAt(piece, Text(c), k)
    ensures Contains(Prompt(s), piece)
  {
    var cs := Clauses(s);
    var i :| 0 <= i < |cs| && cs[i] == c;
    OccursInJoin(piece, Render(cs), Separator, i, k);
  }

  /** The candidate of rank `r` is in the prompt's clauses when it is included. */
  lemma Included(s: Selections, r: nat)
    requires r < ClauseKinds && Candidate(s, r).0
    ensures Candidate(s, r).1 in Clauses(s)
  {
    UpToMembership(s, ClauseKinds, Candidate(s, r).1);
  }

  /** An enabled daylight toggle puts "{lux} lux" into the prompt. */
  lemma DaylightInterpolated(s: Selections)
    requires s.daylight
    ensures Contains(Prompt(s), NatToString(s.lux) + " lux")
  {
    Included(s, 0);
    var t := NatToString(s.lux) + " lux";
    Assoc(DaylightLead, NatToString(s.lux), " lux");
    OccursAfterPrefix(DaylightLead, t);
    PieceInPrompt(s, Daylight(s.lux), t, |DaylightLead|);
  }

  /** An enabled plants toggle puts "{greenery}% area coverage" into the prompt. */
  lemma PlantsInterpolated(s: Selections)
    requires s.plants
    ensures Contains(Prompt(s), NatToString(s.greenery) + PlantsTail)
  {
    Included(s, 1);
    var t := NatToString(s.greenery) + PlantsTail;
    Assoc(PlantsLead, NatToString(s.greenery), PlantsTail);
    OccursAfterPrefix(PlantsLead, t);
    PieceInPrompt(s, Plants(s.greenery), t, |PlantsLead|);
  }

  /** An enabled wood toggle puts "{wood_pct}%" into the prompt. */
  lemma WoodInterpolated(s: Selections)
    requires s.wood
    ensures Contains(Prompt(s), NatToString(s.woodPct) + "%")
  {
    Included(s, 2);
    var t := NatToString(s.woodPct) + "%";
    Assoc(WoodLead, NatToString(s.woodPct), "%");
    OccursAfterPrefix(WoodLead, t);
    PieceInPrompt(s, Wood(s.woodPct), t, |WoodLead|);
  }

  /** An enabled acoustics toggle puts "{noise_level} dB" into the prompt. */
  lemma AcousticsInterpolated(s: Selections)
    requires s.acoustics
    ensures Contains(Prompt(s), NatToString(s.noiseLevel) + " dB")
  {
    Included(s, 4);
    var t := NatToString(s.noiseLevel) + " dB";
    Assoc(AcousticsLead, NatToString(s.noiseLevel), " dB");
    OccursAfterPrefix(AcousticsLead, t);
    PieceInPrompt(s, Acoustics(s.noiseLevel), t, |AcousticsLead|);
  }

  /** The prompt always carries the stair width in metres followed by
      "m to promote movement". */
  lemma WidthInterpolated(s: Selections)
    ensures Contains(Prompt(s), WidthToString(s.stairWidthCm) + StaircaseTail)
  {
    Included(s, 5);
    var t := WidthToString(s.stairWidthCm) + StaircaseTail;
    Assoc(StaircaseLead, WidthToString(s.stairWidthCm), StaircaseTail);
    OccursAfterPrefix(StaircaseLead, t);
    PieceInPrompt(s, Staircase(s.stairWidthCm), t, |StaircaseLead|);
  }

  /** The daylight clause ends with the lux and the acoustics clause with the decibels. */
  lemma ClauseEndings(lux: nat, db: nat)
    ensures EndsWith(Text(Daylight(lux)), NatToString(lux) + " lux")
    ensures EndsWith(Text(Acoustics(db)), NatToString(db) + " dB")
  {
    Assoc(DaylightLead, NatToString(lux), " lux");
    EndsWithAppended(DaylightLead, NatToString(lux) + " lux");
    Assoc(AcousticsLead, NatToString(db), " dB");
    EndsWithAppended(AcousticsLead, NatToString(db) + " dB");
  }

  /** With every toggle off and no style the prompt is the staircase clause and
      the realism phrase alone. */
  lemma AllOffPrompt(s: Selections)
    requires !s.daylight && !s.plants && !s.wood && !s.lounge && !s.acoustics && s.style == NoStyle
    ensures Prompt(s) ==
      "central staircase with width " + WidthToString(s.stairWidthCm) +
      "m to promote movement, " + "ultra realistic, " + "architectural interior photography"
  {
    var w, st := WidthToString(s.stairWidthCm), Text(Staircase(s.stairWidthCm));
    assert Render(Clauses(s)) == [st, RealismPhrase] by {
      ClausesShape(s);
      assert ClausesUpTo(s, 5) == [];
      assert Clauses(s) == [Staircase(s.stairWidthCm), Realism];
    }
    assert Prompt(s) == st + Separator + RealismPhrase by {
      JoinTwo(st, RealismPhrase, Separator);
    }
    assert st + Separator == StaircaseLead + w + "m to promote movement, " by {
      assert StaircaseTail + Separator == "m to promote movement, ";
      Assoc(StaircaseLead + w, StaircaseTail, Separator);
    }
    Assoc(StaircaseLead + w + "m to promote movement, ", "ultra realistic, ", "architectural interior photography");
  }

  /** With only the daylight toggle on and no style, the prompt is the daylight,
      staircase and realism clauses joined. */
  lemma DaylightOnlyPrompt(s: Selections)
    requires s.daylight && !s.plants && !s.wood && !s.lounge && !s.acoustics && s.style == NoStyle
    ensures Prompt(s) == Text(Daylight(s.lux)) + Separator + Text(Staircase(s.stairWidthCm)) + Separator + RealismPhrase
  {
    ClausesShape(s);
    var a, b, c := Text(Daylight(s.lux)), Text(Staircase(s.stairWidthCm)), RealismPhrase;
    assert ClausesUpTo(s, 1) == [Daylight(s.lux)];
    assert ClausesUpTo(s, 5) == ClausesUpTo(s, 4) == ClausesUpTo(s, 3) == ClausesUpTo(s, 2) == ClausesUpTo(s, 1);
    assert Clauses(s) == [Daylight(s.lux), Staircase(s.stairWidthCm), Realism];
    assert Render(Clauses(s)) == [a, b, c];
    assert [a, b, c][1..] == [b, c];
    JoinTwo(b, c, Separator);
  }

  /** Daylight at 700 lux and a 2.0 m staircase, nothing else, whatever the
      sliders of the disabled toggles show. */
  lemma DaylightExample(s: Selections)
    requires s.daylight && !s.plants && !s.wood && !s.lounge && !s.acoustics && s.style == NoStyle
    requires s.lux == 700 && s.stairWidthCm == 200
    ensures Prompt(s) ==
      DaylightLead + "700" + " lux" + Separator + StaircaseLead + "2.0" + StaircaseTail + Separator + RealismPhrase
  {
    DaylightOnlyPrompt(s);
    NumeralExample();
    WidthExamples();
    assert Text(Daylight(s.lux)) == DaylightLead + "700" + " lux";
    assert Text(Staircase(s.stairWidthCm)) == StaircaseLead + "2.0" + StaircaseTail;
    Regroup(DaylightLead, "700", " lux", StaircaseLead, "2.0", StaircaseTail, Separator, RealismPhrase);
  }
}
