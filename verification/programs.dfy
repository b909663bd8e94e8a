/** Learning programs as the scraper keeps them after reshaping the API's
    answers: a program holds sections, a section holds materials, and each
    of the three carries a display `order`. */
module Programs {
  import opened Seqs

  type Id = int

  datatype Material = Material(id: Id, name: string, order: int)

  datatype Section = Section(id: Id, name: string, order: int, materials: seq<Material>)

  datatype Program = Program(name: string, order: int, sections: seq<Section>)

  function MaterialOrder(m: Material): int
  {
    m.order
  }

  function SectionOrder(s: Section): int
  {
    s.order
  }

  function Ids(ms: seq<Material>): seq<Id>
  {
    seq(|ms|, i requires 0 <= i < |ms| => ms[i].id)
  }

  /** The ids of all materials, section by section, each section's in
      stored order. */
  function MaterialIds(sections: seq<Section>): (r: seq<Id>)
    ensures forall x :: x in r <==>
      exists i, j :: 0 <= i < |sections| && 0 <= j < |sections[i].materials| && sections[i].materials[j].id == x
  {
    if |sections| == 0 then []
    else
      var last := |sections| - 1;
      var front := sections[..last];
      var r := MaterialIds(front) + Ids(sections[last].materials);
      assert forall x :: x in r ==>
        exists i, j :: 0 <= i < |sections| && 0 <= j < |sections[i].materials| && sections[i].materials[j].id == x
      by {
        forall x | x in r
          ensures exists i, j :: 0 <= i < |sections| && 0 <= j < |sections[i].materials| && sections[i].materials[j].id == x
        {
          if x in MaterialIds(front) {
            var i, j :| 0 <= i < |front| && 0 <= j < |front[i].materials| && front[i].materials[j].id == x;
            assert sections[i] == front[i];
          } else {
            var j :| 0 <= j < |sections[last].materials| && Ids(sections[last].materials)[j] == x;
          }
        }
      }
      assert forall i, j :: 0 <= i < |sections| && 0 <= j < |sections[i].materials| ==> sections[i].materials[j].id in r
      by {
        forall i, j | 0 <= i < |sections| && 0 <= j < |sections[i].materials|
          ensures sections[i].materials[j].id in r
        {
          if i < last {
            assert front[i] == sections[i];
          } else {
            assert Ids(sections[last].materials)[j] == sections[i].materials[j].id;
          }
        }
      }
      r
  }

  /** The request list of material ids, built by walking the sections and
      each section's materials in stored order. */
  method CollectMaterialIds(program: Program) returns (materials: seq<Id>)
    ensures materials == MaterialIds(program.sections)
  {
    materials := [];
    var i := 0;
    while i < |program.sections|
      invariant 0 <= i <= |program.sections|
      invariant materials == MaterialIds(program.sections[..i])
    {
      var section := program.sections[i];
      var j := 0;
      while j < |section.materials|
        invariant 0 <= j <= |section.materials|
        invariant materials == MaterialIds(program.sections[..i]) + Ids(section.materials[..j])
      {
        materials := materials + [section.materials[j].id];
        j := j + 1;
        assert Ids(section.materials[..j]) == Ids(section.materials[..j - 1]) + [section.materials[j - 1].id];
      }
      assert section.materials[..j] == section.materials;
      assert program.sections[..i + 1][..i] == program.sections[..i];
      i := i + 1;
    }
    assert program.sections[..i] == program.sections;
  }

  /** Whether a material is one of the given longreads. */
  function Listed(longreadIds: seq<Id>): Material -> bool
  {
    (m: Material) => m.id in longreadIds
  }

  function KeepLongreads(ms: seq<Material>, longreadIds: seq<Id>): seq<Material>
  {
    Filter(ms, Listed(longreadIds))
  }

  /** `filter_longreads`: every section keeps just the materials whose id
      is listed; everything else about the program stays as it was. */
  function FilterLongreads(program: Program, longreadIds: seq<Id>): (r: Program)
    ensures r.name == program.name && r.order == program.order
    ensures |r.sections| == |program.sections|
    ensures forall i :: 0 <= i < |program.sections| ==>
      && r.sections[i].id == program.sections[i].id
      && r.sections[i].name == program.sections[i].name
      && r.sections[i].order == program.sections[i].order
    ensures forall i, m :: 0 <= i < |program.sections| ==>
      (m in r.sections[i].materials <==> m in program.sections[i].materials && m.id in longreadIds)
  {
    var s := program.sections;
    program.(sections := seq(|s|, i requires 0 <= i < |s| =>
      s[i].(materials := KeepLongreads(s[i].materials, longreadIds))))
  }

  /** Each section's kept materials are its listed ones in their original
      relative order. */
  lemma FilterLongreadsKeepsOrder(program: Program, longreadIds: seq<Id>, i: nat)
    requires i < |program.sections|
    ensures var ms := program.sections[i].materials;
      PicksInOrder(ms, FilterLongreads(program, longreadIds).sections[i].materials,
        FilterPositions(ms, Listed(longreadIds)), Listed(longreadIds))
  {
    FilterKeepsOrder(program.sections[i].materials, Listed(longreadIds));
  }

  /** Filtering a program a second time by the same ids changes nothing. */
  lemma FilterLongreadsIdempotent(program: Program, longreadIds: seq<Id>)
    ensures FilterLongreads(FilterLongreads(program, longreadIds), longreadIds)
      == FilterLongreads(program, longreadIds)
  {
    var once := FilterLongreads(program, longreadIds);
    var twice := FilterLongreads(once, longreadIds);
    forall i | 0 <= i < |program.sections| ensures twice.sections[i] == once.sections[i] {
      FilterIdempotent(program.sections[i].materials, Listed(longreadIds));
    }
  }
}
