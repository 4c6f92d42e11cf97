/** `section_pairs`: the (heading, passage) pairs a document is indexed by. */
module Pairs {
  import opened Text
  import opened Markdown
  import opened Chunking

  datatype Pair = Pair(heading: string, text: string)

  /** A part under a nonempty heading that shows at most one line is dropped. */
  predicate IsDropped(heading: string, part: string) {
    heading != "" && NonblankCount(SplitLines(part)) <= 1
  }

  function PairsOfParts(heading: string, parts: seq<string>, n: nat): seq<Pair>
    requires n <= |parts|
  {
    if n == 0 then []
    else if IsDropped(heading, parts[n - 1]) then PairsOfParts(heading, parts, n - 1)
    else PairsOfParts(heading, parts, n - 1) + [Pair(heading, parts[n - 1])]
  }

  function SectionParts(section: Section, chunkSize: int, overlap: int): seq<Pair> {
    var parts := SplitSection(section.text, chunkSize, overlap);
    PairsOfParts(section.heading, parts, |parts|)
  }

  function PairsOfSections(sections: seq<Section>, n: nat, chunkSize: int, overlap: int): seq<Pair>
    requires n <= |sections|
  {
    if n == 0 then []
    else PairsOfSections(sections, n - 1, chunkSize, overlap) + SectionParts(sections[n - 1], chunkSize, overlap)
  }

  function SectionPairs(text: string, chunkSize: int, overlap: int): seq<Pair> {
    var sections := Sections(text);
    PairsOfSections(sections, |sections|, chunkSize, overlap)
  }

  predicate IsPartOf(section: Section, chunkSize: int, overlap: int, pair: Pair) {
    && pair.heading == section.heading
    && pair.text in SplitSection(section.text, chunkSize, overlap)
    && !IsDropped(pair.heading, pair.text)
  }

  // ----- which parts, and in what order -----

  /** The part numbered `part` of the section numbered `section`. */
  datatype Place = Place(section: nat, part: nat)

  predicate Precedes(p: Place, q: Place) {
    p.section < q.section || (p.section == q.section && p.part < q.part)
  }

  predicate IsKept(parts: seq<seq<string>>, sections: seq<Section>, p: Place) {
    && p.section < |parts| && p.section < |sections| && p.part < |parts[p.section]|
    && !IsDropped(sections[p.section].heading, parts[p.section][p.part])
  }

  function PairAt(parts: seq<seq<string>>, sections: seq<Section>, p: Place): Pair
    requires IsKept(parts, sections, p)
  {
    Pair(sections[p.section].heading, parts[p.section][p.part])
  }

  /** `places` are the kept places before `limit`, each once and in document order. */
  ghost predicate InOrder(parts: seq<seq<string>>, sections: seq<Section>, places: seq<Place>, limit: Place) {
    && (forall i :: 0 <= i < |places| ==> IsKept(parts, sections, places[i]) && Precedes(places[i], limit))
    && (forall i, j :: 0 <= i < j < |places| ==> Precedes(places[i], places[j]))
    && (forall p :: IsKept(parts, sections, p) && Precedes(p, limit) ==> p in places)
  }

  ghost predicate Shows(parts: seq<seq<string>>, sections: seq<Section>, places: seq<Place>, pairs: seq<Pair>) {
    && |places| == |pairs|
    && forall i :: 0 <= i < |places| ==> IsKept(parts, sections, places[i]) && pairs[i] == PairAt(parts, sections, places[i])
  }

  lemma OneFurther(parts: seq<seq<string>>, sections: seq<Section>, places: seq<Place>, p: Place) returns (more: seq<Place>)
    requires InOrder(parts, sections, places, p)
    ensures more == if IsKept(parts, sections, p) then places + [p] else places
    ensures InOrder(parts, sections, more, Place(p.section, p.part + 1))
  {
    var limit := Place(p.section, p.part + 1);
    more := if IsKept(parts, sections, p) then places + [p] else places;
    forall q | IsKept(parts, sections, q) && Precedes(q, limit) ensures q in more {
      if Precedes(q, p) {
        assert q in places;
      } else {
        assert q == p;
      }
    }
  }

  lemma ShowsFurther(parts: seq<seq<string>>, sections: seq<Section>, places: seq<Place>, pairs: seq<Pair>, p: Place)
    requires Shows(parts, sections, places, pairs) && IsKept(parts, sections, p)
    ensures Shows(parts, sections, places + [p], pairs + [PairAt(parts, sections, p)])
  {
  }

  lemma PartStep(parts: seq<seq<string>>, sections: seq<Section>, p: Place, places: seq<Place>, before: seq<Pair>, next: Place,
                 after: seq<Pair>)
    returns (more: seq<Place>)
    requires next == Place(p.section, p.part + 1)
    requires p.section < |parts| && p.section < |sections| && p.part < |parts[p.section]|
    requires InOrder(parts, sections, places, p) && Shows(parts, sections, places, before)
    requires after == if IsKept(parts, sections, p) then before + [PairAt(parts, sections, p)] else before
    ensures InOrder(parts, sections, more, next) && Shows(parts, sections, more, after)
  {
    more := OneFurther(parts, sections, places, p);
    if IsKept(parts, sections, p) {
      ShowsFurther(parts, sections, places, before, p);
    }
  }

  /** What a further part adds to the pairs. */
  lemma PartAdds(pairs: seq<Pair>, heading: string, parts: seq<string>, n: nat, before: seq<Pair>, after: seq<Pair>)
    requires 0 < n <= |parts|
    requires before == pairs + PairsOfParts(heading, parts, n - 1) && after == pairs + PairsOfParts(heading, parts, n)
    ensures after == if IsDropped(heading, parts[n - 1]) then before else before + [Pair(heading, parts[n - 1])]
  {
  }

  lemma {:induction false} PartsInOrder(parts: seq<seq<string>>, sections: seq<Section>, k: nat, n: nat,
                                        places: seq<Place>, pairs: seq<Pair>, after: seq<Pair>)
    returns (more: seq<Place>)
    requires |parts| == |sections| && k < |parts| && n <= |parts[k]|
    requires InOrder(parts, sections, places, Place(k, 0)) && Shows(parts, sections, places, pairs)
    requires after == pairs + PairsOfParts(sections[k].heading, parts[k], n)
    ensures InOrder(parts, sections, more, Place(k, n)) && Shows(parts, sections, more, after)
  {
    if n == 0 {
      more := places;
      assert after == pairs;
    } else {
      var before := pairs + PairsOfParts(sections[k].heading, parts[k], n - 1);
      var shown := PartsInOrder(parts, sections, k, n - 1, places, pairs, before);
      PartAdds(pairs, sections[k].heading, parts[k], n, before, after);
      more := PartStep(parts, sections, Place(k, n - 1), shown, before, Place(k, n), after);
    }
  }

  lemma NextSection(parts: seq<seq<string>>, sections: seq<Section>, k: nat, places: seq<Place>)
    requires k < |parts| && InOrder(parts, sections, places, Place(k, |parts[k]|))
    ensures InOrder(parts, sections, places, Place(k + 1, 0))
  {
    forall p | IsKept(parts, sections, p) && Precedes(p, Place(k + 1, 0)) ensures p in places {
      assert Precedes(p, Place(k, |parts[k]|));
    }
  }

  lemma SectionStep(parts: seq<seq<string>>, sections: seq<Section>, k: nat, places: seq<Place>, before: seq<Pair>, after: seq<Pair>)
    returns (more: seq<Place>)
    requires |parts| == |sections| && k < |parts|
    requires InOrder(parts, sections, places, Place(k, 0)) && Shows(parts, sections, places, before)
    requires after == before + PairsOfParts(sections[k].heading, parts[k], |parts[k]|)
    ensures InOrder(parts, sections, more, Place(k + 1, 0)) && Shows(parts, sections, more, after)
  {
    more := PartsInOrder(parts, sections, k, |parts[k]|, places, before, after);
    NextSection(parts, sections, k, more);
  }

  function PairsOfLists(parts: seq<seq<string>>, sections: seq<Section>, n: nat): seq<Pair>
    requires n <= |parts| == |sections|
  {
    if n == 0 then []
    else PairsOfLists(parts, sections, n - 1) + PairsOfParts(sections[n - 1].heading, parts[n - 1], |parts[n - 1]|)
  }

  lemma {:induction false} SectionsInOrder(parts: seq<seq<string>>, sections: seq<Section>, n: nat) returns (places: seq<Place>)
    requires n <= |parts| == |sections|
    ensures InOrder(parts, sections, places, Place(n, 0)) && Shows(parts, sections, places, PairsOfLists(parts, sections, n))
  {
    if n == 0 {
      places := [];
    } else {
      var before, after := PairsOfLists(parts, sections, n - 1), PairsOfLists(parts, sections, n);
      var shown := SectionsInOrder(parts, sections, n - 1);
      places := SectionStep(parts, sections, n - 1, shown, before, after);
    }
  }

  ghost predicate AreParts(parts: seq<seq<string>>, sections: seq<Section>, chunkSize: int, overlap: int) {
    && |parts| == |sections|
    && forall k :: 0 <= k < |parts| ==> parts[k] == SplitSection(sections[k].text, chunkSize, overlap)
  }

  lemma {:induction false} PairsOfTheirParts(parts: seq<seq<string>>, sections: seq<Section>, n: nat, chunkSize: int, overlap: int)
    requires AreParts(parts, sections, chunkSize, overlap) && n <= |sections|
    ensures PairsOfSections(sections, n, chunkSize, overlap) == PairsOfLists(parts, sections, n)
  {
    if n > 0 {
      PairsOfTheirParts(parts, sections, n - 1, chunkSize, overlap);
    }
  }

  /** The pairs of a document are the kept parts of its sections, each once, in document order. */
  lemma PairsInOrder(text: string, chunkSize: int, overlap: int) returns (parts: seq<seq<string>>, places: seq<Place>)
    ensures AreParts(parts, Sections(text), chunkSize, overlap)
    ensures Shows(parts, Sections(text), places, SectionPairs(text, chunkSize, overlap))
    ensures forall i, j :: 0 <= i < j < |places| ==> Precedes(places[i], places[j])
    ensures forall p :: p in places <==> IsKept(parts, Sections(text), p)
  {
    var sections := Sections(text);
    parts := seq(|sections|, k requires 0 <= k < |sections| => SplitSection(sections[k].text, chunkSize, overlap));
    places := SectionsInOrder(parts, sections, |sections|);
    PairsOfTheirParts(parts, sections, |sections|, chunkSize, overlap);
    forall p | IsKept(parts, sections, p) ensures p in places {
      assert Precedes(p, Place(|sections|, 0));
    }
  }

  lemma PlaceIsPart(parts: seq<seq<string>>, sections: seq<Section>, chunkSize: int, overlap: int, p: Place)
    requires AreParts(parts, sections, chunkSize, overlap) && IsKept(parts, sections, p)
    ensures IsPartOf(sections[p.section], chunkSize, overlap, PairAt(parts, sections, p))
  {
  }

  /** A document is indexed by exactly the parts of its sections that are not dropped, and under a
      nonempty heading a part is dropped exactly when it shows at most one line. */
  lemma PairsAreKeptParts(text: string, chunkSize: int, overlap: int, pair: Pair)
    ensures pair in SectionPairs(text, chunkSize, overlap) <==>
            exists k :: 0 <= k < |Sections(text)| && IsPartOf(Sections(text)[k], chunkSize, overlap, pair)
  {
    var sections, pairs := Sections(text), SectionPairs(text, chunkSize, overlap);
    var parts, places := PairsInOrder(text, chunkSize, overlap);
    if pair in pairs {
      var i :| 0 <= i < |pairs| && pairs[i] == pair;
      PlaceIsPart(parts, sections, chunkSize, overlap, places[i]);
      assert IsPartOf(sections[places[i].section], chunkSize, overlap, pair);
    }
    forall k | 0 <= k < |sections| && IsPartOf(sections[k], chunkSize, overlap, pair) ensures pair in pairs {
      var j :| 0 <= j < |parts[k]| && parts[k][j] == pair.text;
      assert IsKept(parts, sections, Place(k, j)) && pair == PairAt(parts, sections, Place(k, j));
      assert Place(k, j) in places;
    }
  }

  /** `section_pairs`, as the nested loops the script runs. */
  method ReadPairs(text: string, chunkSize: int, overlap: int) returns (pairs: seq<Pair>)
    ensures pairs == SectionPairs(text, chunkSize, overlap)
  {
    pairs := [];
    var sections := MarkdownSections(text);
    for i := 0 to |sections|
      invariant pairs == PairsOfSections(sections, i, chunkSize, overlap)
    {
      var parts := Split(sections[i].text, chunkSize, overlap);
      pairs := AppendParts(pairs, sections[i].heading, parts);
    }
  }

  method AppendParts(before: seq<Pair>, heading: string, parts: seq<string>) returns (pairs: seq<Pair>)
    ensures pairs == before + PairsOfParts(heading, parts, |parts|)
  {
    pairs := before;
    for j := 0 to |parts|
      invariant pairs == before + PairsOfParts(heading, parts, j)
    {
      var nonblank := NonblankCount(SplitLines(parts[j]));
      pairs := pairs + (if heading != "" && nonblank <= 1 then [] else [Pair(heading, parts[j])]);
    }
  }
}
