/** Confidence in a language by its share of the source lines, and the primary profile. */
module StackConfidence {
  import opened Ordering

  /** Lines of one suffix, and the language the table gives the suffix, if any. */
  datatype Count = Count(suffix: string, lines: nat)

  datatype Profile = Profile(id: string, confidence: real)

  function LinesOf(counts: seq<Count>, languages: map<string, string>, lang: string, n: nat): nat
    requires n <= |counts|
  {
    if n == 0 then 0
    else LinesOf(counts, languages, lang, n - 1)
         + if counts[n - 1].suffix in languages && languages[counts[n - 1].suffix] == lang then counts[n - 1].lines else 0
  }

  function Total(counts: seq<Count>, n: nat): nat
    requires n <= |counts|
  {
    if n == 0 then 0 else Total(counts, n - 1) + counts[n - 1].lines
  }

  function Share(counts: seq<Count>, languages: map<string, string>, lang: string): real {
    var total := if Total(counts, |counts|) == 0 then 1 else Total(counts, |counts|);
    LinesOf(counts, languages, lang, |counts|) as real / total as real
  }

  /** `round(x, 2)` as any map that moves a value by at most half a hundredth. */
  ghost predicate IsRounding(round: real -> real) {
    forall x :: Near(round, x)
  }

  predicate Near(round: real -> real, x: real) {
    -0.005 <= round(x) - x <= 0.005
  }

  /** `_confidence` */
  function Confidence(share: real, round: real -> real): real {
    if share < 0.5 then 0.5
    else
      var r := round(0.5 + 0.45 * share);
      if r < 0.95 then r else 0.95
  }

  /** The sort key `(-confidence, id)`. */
  function ProfileBefore(): (Profile, Profile) -> bool {
    (a: Profile, b: Profile) =>
      a.confidence > b.confidence || (a.confidence == b.confidence && StringLess()(a.id, b.id))
  }

  function Profiles(candidates: seq<string>, counts: seq<Count>, languages: map<string, string>,
                    round: real -> real, n: nat): (r: seq<Profile>)
    requires n <= |candidates|
    ensures |r| == n
    ensures forall i :: 0 <= i < n ==>
      r[i] == Profile(candidates[i], Confidence(Share(counts, languages, candidates[i]), round))
  {
    if n == 0 then []
    else Profiles(candidates, counts, languages, round, n - 1)
         + [Profile(candidates[n - 1], Confidence(Share(counts, languages, candidates[n - 1]), round))]
  }

  /** `max(languages, key=confidence)`: the first of the greatest. */
  function Primary(profiles: seq<Profile>, n: nat): (p: Profile)
    requires 0 < n <= |profiles|
  {
    if n == 1 then profiles[0]
    else
      var best := Primary(profiles, n - 1);
      if profiles[n - 1].confidence > best.confidence then profiles[n - 1] else best
  }

  /** The language part of `_detect_profiles`; `candidates` are the languages with a marker. */
  method Detect(candidates: seq<string>, counts: seq<Count>, languages: map<string, string>, round: real -> real)
    returns (profiles: seq<Profile>)
    ensures profiles == if candidates == [] then [Profile("unknown", 0.1)]
                        else Sort(Profiles(Sort(candidates, StringLess()), counts, languages, round, |candidates|),
                                  ProfileBefore())
  {
    profiles := [];
    var ordered := Sort(candidates, StringLess());
    for i := 0 to |ordered|
      invariant profiles == Profiles(ordered, counts, languages, round, i)
    {
      profiles := profiles + [Profile(ordered[i], Confidence(Share(counts, languages, ordered[i]), round))];
    }
    profiles := Sort(profiles, ProfileBefore());
    if profiles == [] {
      profiles := [Profile("unknown", 0.1)];
    }
  }

  // ----- at most one language is clearly ahead -----

  lemma {:induction false} TwoLanguages(counts: seq<Count>, languages: map<string, string>, a: string, b: string, n: nat)
    requires n <= |counts| && a != b
    ensures LinesOf(counts, languages, a, n) + LinesOf(counts, languages, b, n) <= Total(counts, n)
  {
    if n > 0 {
      TwoLanguages(counts, languages, a, b, n - 1);
    }
  }

  lemma PartsOfOne(p: real, q: real, t: real, x: real, y: real)
    requires t > 0.0 && p * t == x && q * t == y && x + y <= t
    ensures p + q <= 1.0
  {
    var rest := 1.0 - (p + q);
    assert rest * t == t - (p * t + q * t);
  }

  lemma Quotient(x: real, t: real) returns (p: real)
    requires t > 0.0
    ensures p == x / t && p * t == x
  {
    p := x / t;
  }

  lemma Halves(x: real, y: real, t: real)
    requires t > 0.0 && x + y <= t
    ensures x / t + y / t <= 1.0
  {
    var p := Quotient(x, t);
    var q := Quotient(y, t);
    PartsOfOne(p, q, t, x, y);
  }

  /** Shares of different languages cannot both exceed one half. */
  lemma OneMajority(counts: seq<Count>, languages: map<string, string>, a: string, b: string)
    requires a != b && Share(counts, languages, a) > 0.5
    ensures Share(counts, languages, b) < 0.5
  {
    var n := |counts|;
    TwoLanguages(counts, languages, a, b, n);
    var total := if Total(counts, n) == 0 then 1 else Total(counts, n);
    Halves(LinesOf(counts, languages, a, n) as real, LinesOf(counts, languages, b, n) as real, total as real);
  }

  lemma HighMeansMajority(share: real, round: real -> real)
    requires IsRounding(round) && Confidence(share, round) >= 0.8
    ensures share > 0.65
  {
    assert Near(round, 0.5 + 0.45 * share);
  }

  lemma {:induction false} PrimaryIsFirst(profiles: seq<Profile>, n: nat)
    requires 0 < n <= |profiles|
    requires forall i :: 0 < i < n ==> profiles[i].confidence <= profiles[0].confidence
    ensures Primary(profiles, n) == profiles[0]
  {
    if n > 1 {
      PrimaryIsFirst(profiles, n - 1);
    }
  }

  lemma ProfilesAreOrdered()
    ensures StrictTotal(ProfileBefore())
  {
    var less := ProfileBefore();
    StringsAreOrdered();
    forall a, b, c ensures Chains(less, a, b, c) {
      assert Chains(StringLess(), a.id, b.id, c.id);
    }
    forall a, b ensures Decides(less, a, b) {
      assert Decides(StringLess(), a.id, b.id);
    }
  }

  /** What `Detect` returns for some candidates. */
  ghost predicate IsDetected(candidates: seq<string>, counts: seq<Count>, languages: map<string, string>,
                             round: real -> real, profiles: seq<Profile>) {
    profiles == Sort(Profiles(Sort(candidates, StringLess()), counts, languages, round, |candidates|), ProfileBefore())
  }

  lemma ProfileOf(candidates: seq<string>, counts: seq<Count>, languages: map<string, string>, round: real -> real,
                  profiles: seq<Profile>, i: nat)
    requires IsDetected(candidates, counts, languages, round, profiles) && i < |profiles|
    ensures profiles[i].confidence == Confidence(Share(counts, languages, profiles[i].id), round)
  {
    var listed := Profiles(Sort(candidates, StringLess()), counts, languages, round, |candidates|);
    ProfilesAreOrdered();
    SortSorts(listed, ProfileBefore());
    SameMembers(listed, profiles, profiles[i]);
    assert profiles[i] in listed;
  }

  lemma DetectedFalls(candidates: seq<string>, counts: seq<Count>, languages: map<string, string>, round: real -> real,
                      profiles: seq<Profile>)
    requires IsDetected(candidates, counts, languages, round, profiles)
    ensures Sorted(profiles, ProfileBefore())
  {
    ProfilesAreOrdered();
    SortSorts(Profiles(Sort(candidates, StringLess()), counts, languages, round, |candidates|), ProfileBefore());
  }

  /** Only one language can reach confidence 0.8, and it is then the primary profile. */
  lemma ConfidentIsPrimary(candidates: seq<string>, counts: seq<Count>, languages: map<string, string>,
                           round: real -> real, profiles: seq<Profile>, i: nat)
    requires IsRounding(round) && IsDetected(candidates, counts, languages, round, profiles)
    requires i < |profiles| && profiles[i].confidence >= 0.8
    ensures Primary(profiles, |profiles|) == profiles[0] && profiles[0].id == profiles[i].id
    ensures forall j :: 0 <= j < |profiles| && profiles[j].id != profiles[i].id ==> profiles[j].confidence == 0.5
  {
    ProfileOf(candidates, counts, languages, round, profiles, i);
    HighMeansMajority(Share(counts, languages, profiles[i].id), round);
    DetectedFalls(candidates, counts, languages, round, profiles);
    forall j | 0 <= j < |profiles| && profiles[j].id != profiles[i].id ensures profiles[j].confidence == 0.5 {
      ProfileOf(candidates, counts, languages, round, profiles, j);
      OneMajority(counts, languages, profiles[i].id, profiles[j].id);
    }
    PrimaryIsFirst(profiles, |profiles|);
  }

  // ----- the numbers shown -----

  /** The lines of a language are those of the suffixes the table gives it. */
  lemma OneMoreSuffix(counts: seq<Count>, languages: map<string, string>, lang: string, c: Count)
    ensures LinesOf([], languages, lang, 0) == 0 && Total([], 0) == 0
    ensures LinesOf(counts + [c], languages, lang, |counts| + 1)
         == LinesOf(counts, languages, lang, |counts|)
            + (if c.suffix in languages && languages[c.suffix] == lang then c.lines else 0)
    ensures Total(counts + [c], |counts| + 1) == Total(counts, |counts|) + c.lines
  {
    SumsOfPrefix(counts, languages, lang, c, |counts|);
  }

  lemma {:induction false} SumsOfPrefix(counts: seq<Count>, languages: map<string, string>, lang: string, c: Count, n: nat)
    requires n <= |counts|
    ensures LinesOf(counts + [c], languages, lang, n) == LinesOf(counts, languages, lang, n)
    ensures Total(counts + [c], n) == Total(counts, n)
  {
    if n > 0 {
      SumsOfPrefix(counts, languages, lang, c, n - 1);
    }
  }

  /** Nothing is shown below one half or above 0.95. */
  lemma ConfidenceIs(share: real, round: real -> real, c: real)
    requires IsRounding(round) && c == Confidence(share, round)
    ensures share < 0.5 ==> c == 0.5
    ensures share >= 0.5 ==> c <= 0.95 && (c == 0.95 || -0.005 <= c - (0.5 + 0.45 * share) <= 0.005)
    ensures share >= 0.5 && 0.5 + 0.45 * share < 0.945 ==> c < 0.95
  {
    assert Near(round, 0.5 + 0.45 * share);
  }

  lemma ShareIs(counts: seq<Count>, languages: map<string, string>, lang: string, lines: nat, total: nat)
    requires lines == LinesOf(counts, languages, lang, |counts|) && total == Total(counts, |counts|)
    ensures Share(counts, languages, lang) == if total == 0 then lines as real else lines as real / total as real
  {
  }

  /** The confidence shown for a language: one half below half of the lines, else within half a hundredth of
      `0.5 + 0.45 * share`, cut at 0.95. */
  lemma ShownConfidence(candidates: seq<string>, counts: seq<Count>, languages: map<string, string>,
                        round: real -> real, profiles: seq<Profile>, i: nat, lines: nat, total: nat, share: real)
    requires IsRounding(round) && IsDetected(candidates, counts, languages, round, profiles) && i < |profiles|
    requires lines == LinesOf(counts, languages, profiles[i].id, |counts|) && total == Total(counts, |counts|)
    requires share == if total == 0 then lines as real else lines as real / total as real
    ensures share < 0.5 ==> profiles[i].confidence == 0.5
    ensures share >= 0.5 ==> profiles[i].confidence <= 0.95
    ensures share >= 0.5 && profiles[i].confidence != 0.95 ==>
              -0.005 <= profiles[i].confidence - (0.5 + 0.45 * share) <= 0.005
    ensures share >= 0.5 && 0.5 + 0.45 * share < 0.945 ==> profiles[i].confidence < 0.95
  {
    ProfileOf(candidates, counts, languages, round, profiles, i);
    ShareIs(counts, languages, profiles[i].id, lines, total);
    ConfidenceIs(share, round, profiles[i].confidence);
  }

  /** Profiles stand by falling confidence, and by identifier where that is equal. */
  lemma ProfilesFall(candidates: seq<string>, counts: seq<Count>, languages: map<string, string>,
                     round: real -> real, profiles: seq<Profile>, i: nat, j: nat)
    requires IsDetected(candidates, counts, languages, round, profiles) && i < j < |profiles|
    ensures profiles[i].confidence >= profiles[j].confidence
    ensures profiles[i].confidence == profiles[j].confidence && profiles[i].id != profiles[j].id ==>
              StringLess()(profiles[i].id, profiles[j].id)
  {
    DetectedFalls(candidates, counts, languages, round, profiles);
    StringsAreOrdered();
    assert Decides(StringLess(), profiles[i].id, profiles[j].id);
  }

  /** The primary profile is the first of the greatest confidence. */
  lemma {:induction false} PrimaryIs(profiles: seq<Profile>, n: nat) returns (k: nat)
    requires 0 < n <= |profiles|
    ensures k < n && Primary(profiles, n) == profiles[k]
    ensures forall i :: 0 <= i < n ==> profiles[i].confidence <= profiles[k].confidence
    ensures forall i :: 0 <= i < k ==> profiles[i].confidence < profiles[k].confidence
  {
    k := 0;
    if n > 1 {
      k := PrimaryIs(profiles, n - 1);
      if profiles[n - 1].confidence > profiles[k].confidence {
        k := n - 1;
      }
    }
  }
}
