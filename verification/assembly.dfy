/** Assembling one program's Markdown document (`create_program_content_md`
    and the steps of `main` around it): sections in the order given, each
    section's materials stably sorted by `order`, one `# name` block per
    material holding its longread body with headings pushed down a level. */
module Assembly {
  import opened Results
  import opened StableSort
  import opened Lines
  import opened Headings
  import opened HeadingProperties
  import opened Programs

  /** One fetched longread page: the longread's id and the page body,
      `None` when the platform sends a null body. */
  datatype Longread = Longread(id: Id, content: Option<string>)

  /** `text` is `None`, because no entry has the id or the first one that
      has it holds a null body, and `re.sub` rejects it: the run aborts. */
  datatype AssemblyError = MissingContent(id: Id)

  /** Entry `i` is the first one with id `id`. */
  ghost predicate FirstEntry(contents: seq<Longread>, id: Id, i: int)
  {
    0 <= i < |contents| && contents[i].id == id && forall j :: 0 <= j < i ==> contents[j].id != id
  }

  /** The first entry with id `id` exists and holds a body. */
  ghost predicate HasContent(contents: seq<Longread>, id: Id)
  {
    exists i :: FirstEntry(contents, id, i) && contents[i].content.Some?
  }

  /** What `next(..., None)` gives: the content of the first entry whose id
      is `id`, so `None` when there is no such entry and also when that
      entry's body is null, whatever later entries hold. */
  function FindContent(contents: seq<Longread>, id: Id): (r: Option<string>)
    ensures r.None? <==> !HasContent(contents, id)
    ensures r.Some? ==> exists i :: FirstEntry(contents, id, i) && contents[i].content == r
  {
    if |contents| == 0 then None
    else if contents[0].id == id then
      assert FirstEntry(contents, id, 0);
      contents[0].content
    else
      var tail := contents[1..];
      var r := FindContent(tail, id);
      FirstEntryOfTail(contents, id);
      assert HasContent(contents, id) ==> HasContent(tail, id) by {
        if HasContent(contents, id) {
          var i :| FirstEntry(contents, id, i) && contents[i].content.Some?;
          assert tail[i - 1] == contents[i];
        }
      }
      assert r.Some? ==> exists i :: FirstEntry(contents, id, i) && contents[i].content == r by {
        if r.Some? {
          var i :| FirstEntry(tail, id, i) && tail[i].content == r;
          assert FirstEntry(contents, id, i + 1);
        }
      }
      r
  }

  /** Past a first entry with another id, the first entries are those of
      the tail, one position further on. */
  lemma FirstEntryOfTail(contents: seq<Longread>, id: Id)
    requires |contents| != 0 && contents[0].id != id
    ensures forall i :: FirstEntry(contents, id, i) <==> i >= 1 && FirstEntry(contents[1..], id, i - 1)
  {
    var tail := contents[1..];
    forall i ensures FirstEntry(contents, id, i) <==> i >= 1 && FirstEntry(tail, id, i - 1) {
      if 1 <= i <= |contents| {
        assert forall j :: 0 <= j < i - 1 ==> tail[j] == contents[j + 1];
        assert forall j :: 1 <= j < i ==> contents[j] == tail[j - 1];
      }
    }
  }

  /** The text one material contributes. */
  function MaterialBlock(m: Material, text: string): string
  {
    "# " + m.name + "\n\n\n" + ShiftHeadings(text, 1) + "\n"
  }

  /** The blocks of `ms`, in order, or the id of the first material whose
      content is missing. */
  function AssembleMaterials(ms: seq<Material>, contents: seq<Longread>): (r: Result<string, AssemblyError>)
    ensures r.Success? <==> forall i :: 0 <= i < |ms| ==> HasContent(contents, ms[i].id)
    ensures r.Failure? ==> exists i :: (0 <= i < |ms| && r.error == MissingContent(ms[i].id)
      && !HasContent(contents, ms[i].id) && forall j :: 0 <= j < i ==> HasContent(contents, ms[j].id))
  {
    if |ms| == 0 then Success("")
    else
      match FindContent(contents, ms[0].id)
      case None => Failure(MissingContent(ms[0].id))
      case Some(text) =>
        var rest := AssembleMaterials(ms[1..], contents);
        assert forall i :: 1 <= i < |ms| ==> ms[i] == ms[1..][i - 1];
        match rest
        case Failure(e) =>
          assert exists i :: (0 <= i < |ms| && e == MissingContent(ms[i].id)
            && !HasContent(contents, ms[i].id) && forall j :: 0 <= j < i ==> HasContent(contents, ms[j].id))
          by {
            var i :| 0 <= i < |ms[1..]| && e == MissingContent(ms[1..][i].id)
              && !HasContent(contents, ms[1..][i].id) && forall j :: 0 <= j < i ==> HasContent(contents, ms[1..][j].id);
            assert ms[i + 1] == ms[1..][i];
          }
          Failure(e)
        case Success(tail) => Success(MaterialBlock(ms[0], text) + tail)
  }

  /** A section's materials in the order they are written out. */
  function SectionMaterials(section: Section): seq<Material>
  {
    SortBy(section.materials, MaterialOrder)
  }

  /** `create_program_content_md(sections, longreads_content)`. */
  function CreateProgramContentMd(sections: seq<Section>, contents: seq<Longread>): Result<string, AssemblyError>
  {
    if |sections| == 0 then Success("")
    else
      match AssembleMaterials(SectionMaterials(sections[0]), contents)
      case Failure(e) => Failure(e)
      case Success(head) =>
        match CreateProgramContentMd(sections[1..], contents)
        case Failure(e) => Failure(e)
        case Success(tail) => Success(head + tail)
  }

  /** Every material that gets a block, in the order of the blocks. */
  function EmittedMaterials(sections: seq<Section>): seq<Material>
  {
    if |sections| == 0 then [] else SectionMaterials(sections[0]) + EmittedMaterials(sections[1..])
  }

  /** Assembling two runs of materials one after the other is assembling
      each and concatenating, the first failure winning. */
  lemma {:induction false} AssembleAppend(a: seq<Material>, b: seq<Material>, contents: seq<Longread>)
    ensures AssembleMaterials(a + b, contents) ==
      match AssembleMaterials(a, contents)
      case Failure(e) => Failure(e)
      case Success(x) =>
        match AssembleMaterials(b, contents)
        case Failure(e) => Failure(e)
        case Success(y) => Success(x + y)
  {
    if |a| == 0 {
      assert a + b == b;
      match AssembleMaterials(b, contents)
      case Failure(e) =>
      case Success(y) => assert "" + y == y;
    } else {
      assert (a + b)[0] == a[0];
      assert (a + b)[1..] == a[1..] + b;
      AssembleAppend(a[1..], b, contents);
      match AssembleMaterials(a[1..], contents)
      case Failure(e) =>
      case Success(x) =>
        match AssembleMaterials(b, contents)
        case Failure(e) =>
        case Success(y) =>
          match FindContent(contents, a[0].id)
          case None =>
          case Some(text) =>
            assert MaterialBlock(a[0], text) + (x + y) == (MaterialBlock(a[0], text) + x) + y;
    }
  }

  /** Sections are written out in the order given: the document is the
      blocks of the emitted materials, section by section. */
  lemma {:induction false} SectionsInOrder(sections: seq<Section>, contents: seq<Longread>)
    ensures CreateProgramContentMd(sections, contents) == AssembleMaterials(EmittedMaterials(sections), contents)
  {
    if |sections| != 0 {
      SectionsInOrder(sections[1..], contents);
      AssembleAppend(SectionMaterials(sections[0]), EmittedMaterials(sections[1..]), contents);
    }
  }

  /** The heading line of every material in `ms`, in order. */
  function MaterialHeadings(ms: seq<Material>): seq<string>
  {
    seq(|ms|, i requires 0 <= i < |ms| => "# " + ms[i].name)
  }

  /** A material's block starts with its own first-level heading and adds
      no other: its body's headings are all pushed to level two or deeper. */
  lemma BlockTopHeadings(m: Material, text: string, tail: string)
    requires '\n' !in m.name
    ensures TopHeadings(MaterialBlock(m, text) + tail) == ["# " + m.name] + TopHeadings(tail)
  {
    var heading := "# " + m.name;
    var body := ShiftHeadings(text, 1);
    var x0 := body + "\n" + tail;
    var x1 := "\n" + x0;
    var x2 := "\n" + x1;
    BlockShape(m, text, tail);
    HeadingThenRest(m.name, x2);
    NewlineThenRest(x1);
    NewlineThenRest(x0);
    ShiftedBodyThenRest(text, tail);
  }

  lemma HeadingThenRest(name: string, rest: string)
    requires '\n' !in name
    ensures TopHeadings(("# " + name) + "\n" + rest) == ["# " + name] + TopHeadings(rest)
  {
    TopHeadingsAtNewline("# " + name, rest);
    HeadingLineIsTop(name);
  }

  /** An empty line in front adds no heading. */
  lemma NewlineThenRest(rest: string)
    ensures TopHeadings("\n" + rest) == TopHeadings(rest)
  {
    assert "\n" + rest == "" + "\n" + rest;
    TopHeadingsAtNewline("", rest);
    NoTopHeadingInEmptyLine();
  }

  lemma ShiftedBodyThenRest(text: string, rest: string)
    ensures TopHeadings(ShiftHeadings(text, 1) + "\n" + rest) == TopHeadings(rest)
  {
    TopHeadingsAtNewline(ShiftHeadings(text, 1), rest);
    ShiftedBodyHasNoTopHeading(text, 1);
  }

  /** A block split at its '\n' characters: heading line, two empty lines,
      the shifted body, and whatever follows. */
  lemma BlockShape(m: Material, text: string, tail: string)
    ensures MaterialBlock(m, text) + tail
      == ("# " + m.name) + "\n" + ("\n" + ("\n" + (ShiftHeadings(text, 1) + "\n" + tail)))
  {
  }

  lemma NoTopHeadingInEmptyLine()
    ensures TopHeadings("") == []
  {
  }

  lemma HeadingLineIsTop(name: string)
    requires '\n' !in name
    ensures TopHeadings("# " + name) == ["# " + name]
  {
    var heading := "# " + name;
    assert '\n' !in heading by {
      assert forall i :: 2 <= i < |heading| ==> heading[i] == name[i - 2];
    }
    SplitOneLine(heading);
    assert IsTopHeading(heading);
  }

  /** When material names hold no '\n', the first-level heading lines of
      the assembled text are exactly the material headings, one per
      material, in the order the materials are written out. */
  lemma {:induction false} AssembledTopHeadings(ms: seq<Material>, contents: seq<Longread>)
    requires forall i :: 0 <= i < |ms| ==> '\n' !in ms[i].name
    requires AssembleMaterials(ms, contents).Success?
    ensures TopHeadings(AssembleMaterials(ms, contents).value) == MaterialHeadings(ms)
  {
    if |ms| == 0 {
      NoTopHeadingInEmptyLine();
    } else {
      AssembleCons(ms, contents);
      var text := FindContent(contents, ms[0].id).value;
      var tail := AssembleMaterials(ms[1..], contents).value;
      assert forall i :: 0 <= i < |ms[1..]| ==> ms[1..][i] == ms[i + 1];
      AssembledTopHeadings(ms[1..], contents);
      BlockTopHeadings(ms[0], text, tail);
      MaterialHeadingsCons(ms);
    }
  }

  lemma MaterialHeadingsCons(ms: seq<Material>)
    requires |ms| != 0
    ensures MaterialHeadings(ms) == ["# " + ms[0].name] + MaterialHeadings(ms[1..])
  {
    assert forall i :: 1 <= i < |ms| ==> ms[i] == ms[1..][i - 1];
  }

  /** A successful assembly is the first material's block followed by the
      assembly of the rest. */
  lemma AssembleCons(ms: seq<Material>, contents: seq<Longread>)
    requires |ms| != 0 && AssembleMaterials(ms, contents).Success?
    ensures FindContent(contents, ms[0].id).Some?
    ensures AssembleMaterials(ms[1..], contents).Success?
    ensures AssembleMaterials(ms, contents).value
      == MaterialBlock(ms[0], FindContent(contents, ms[0].id).value) + AssembleMaterials(ms[1..], contents).value
  {
  }

  /** The marker `main` puts in front of the assembled text for the
      Markdown renderer's table of contents. */
  const TocMarker: string := "[TOC] \n\n"

  /** The sections of a program as `main` hands them to the assembly:
      listed materials only, sections sorted by `order`. */
  function DocumentSections(program: Program, longreadIds: seq<Id>): seq<Section>
  {
    SortBy(FilterLongreads(program, longreadIds).sections, SectionOrder)
  }

  /** The Markdown document `main` writes for one program. */
  function ProgramDocument(program: Program, longreadIds: seq<Id>, contents: seq<Longread>): Result<string, AssemblyError>
  {
    match CreateProgramContentMd(DocumentSections(program, longreadIds), contents)
    case Failure(e) => Failure(e)
    case Success(body) => Success(TocMarker + body)
  }

  /** A material is written out exactly when one of its program's sections
      holds it and its id is listed. */
  lemma EmittedFromProgram(program: Program, longreadIds: seq<Id>)
    ensures forall m :: m in EmittedMaterials(DocumentSections(program, longreadIds)) <==>
      m.id in longreadIds && exists i :: 0 <= i < |program.sections| && m in program.sections[i].materials
  {
    var filtered := FilterLongreads(program, longreadIds);
    var sections := DocumentSections(program, longreadIds);
    EmittedMembership(sections);
    SortByKeepsMembers(filtered.sections, SectionOrder);
    forall m: Material | m in EmittedMaterials(sections)
      ensures m.id in longreadIds && exists i :: 0 <= i < |program.sections| && m in program.sections[i].materials
    {
      EmittedComesFromProgram(program, longreadIds, m);
    }
    forall m: Material | m.id in longreadIds && exists i :: 0 <= i < |program.sections| && m in program.sections[i].materials
      ensures m in EmittedMaterials(sections)
    {
      var i :| 0 <= i < |program.sections| && m in program.sections[i].materials;
      assert m in filtered.sections[i].materials;
      assert filtered.sections[i] in filtered.sections;
    }
  }

  lemma EmittedComesFromProgram(program: Program, longreadIds: seq<Id>, m: Material)
    requires exists s :: s in DocumentSections(program, longreadIds) && m in s.materials
    ensures m.id in longreadIds && exists i :: 0 <= i < |program.sections| && m in program.sections[i].materials
  {
    var filtered := FilterLongreads(program, longreadIds);
    SortByKeepsMembers(filtered.sections, SectionOrder);
    var s :| s in DocumentSections(program, longreadIds) && m in s.materials;
    var i :| 0 <= i < |filtered.sections| && filtered.sections[i] == s;
    assert m in program.sections[i].materials && m.id in longreadIds;
  }

  lemma {:induction false} EmittedMembership(sections: seq<Section>)
    ensures forall m :: m in EmittedMaterials(sections) <==> exists s :: s in sections && m in s.materials
  {
    if |sections| != 0 {
      EmittedMembership(sections[1..]);
      SortByKeepsMembers(sections[0].materials, MaterialOrder);
      forall s | s in sections ensures s == sections[0] || s in sections[1..] {
        var i :| 0 <= i < |sections| && sections[i] == s;
        if i != 0 {
          assert sections[1..][i - 1] == s;
        }
      }
    }
  }

  /** Every top-level heading of the document is a material heading, one
      per written-out material, in document order. */
  lemma DocumentHeadings(program: Program, longreadIds: seq<Id>, contents: seq<Longread>)
    requires forall i, j :: 0 <= i < |program.sections| && 0 <= j < |program.sections[i].materials| ==>
      '\n' !in program.sections[i].materials[j].name
    requires ProgramDocument(program, longreadIds, contents).Success?
    ensures var doc := ProgramDocument(program, longreadIds, contents).value;
      && doc[..|TocMarker|] == TocMarker
      && TopHeadings(doc) == MaterialHeadings(EmittedMaterials(DocumentSections(program, longreadIds)))
  {
    var sections := DocumentSections(program, longreadIds);
    var emitted := EmittedMaterials(sections);
    SectionsInOrder(sections, contents);
    EmittedNamesAreSingleLines(program, longreadIds);
    AssembledTopHeadings(emitted, contents);
    TocThenBody(AssembleMaterials(emitted, contents).value);
  }

  lemma EmittedNamesAreSingleLines(program: Program, longreadIds: seq<Id>)
    requires forall i, j :: 0 <= i < |program.sections| && 0 <= j < |program.sections[i].materials| ==>
      '\n' !in program.sections[i].materials[j].name
    ensures var emitted := EmittedMaterials(DocumentSections(program, longreadIds));
      forall k :: 0 <= k < |emitted| ==> '\n' !in emitted[k].name
  {
    var emitted := EmittedMaterials(DocumentSections(program, longreadIds));
    EmittedFromProgram(program, longreadIds);
    forall k | 0 <= k < |emitted| ensures '\n' !in emitted[k].name {
      assert emitted[k] in emitted;
      var i :| 0 <= i < |program.sections| && emitted[k] in program.sections[i].materials;
      var j :| 0 <= j < |program.sections[i].materials| && program.sections[i].materials[j] == emitted[k];
    }
  }

  /** The table-of-contents marker adds no heading of its own. */
  lemma TocThenBody(body: string)
    ensures (TocMarker + body)[..|TocMarker|] == TocMarker
    ensures TopHeadings(TocMarker + body) == TopHeadings(body)
  {
    TocShape(body);
    TopHeadingsAtNewline("[TOC] ", "\n" + body);
    NewlineThenRest(body);
    TocLineIsNoHeading();
  }

  lemma TocShape(body: string)
    ensures TocMarker + body == "[TOC] " + "\n" + ("\n" + body)
  {
  }

  lemma TocLineIsNoHeading()
    ensures TopHeadings("[TOC] ") == []
  {
    SplitOneLine("[TOC] ");
  }

  /** The document can be built exactly when every listed material of the
      program has a fetched body; otherwise the run stops at a listed
      material without one. */
  lemma DocumentSucceeds(program: Program, longreadIds: seq<Id>, contents: seq<Longread>)
    ensures ProgramDocument(program, longreadIds, contents).Success? <==>
      forall i, j :: (0 <= i < |program.sections| && 0 <= j < |program.sections[i].materials|
        && program.sections[i].materials[j].id in longreadIds) ==>
        HasContent(contents, program.sections[i].materials[j].id)
    ensures ProgramDocument(program, longreadIds, contents).Failure? ==>
      var id := ProgramDocument(program, longreadIds, contents).error.id;
      id in longreadIds && !HasContent(contents, id)
      && exists i, j :: (0 <= i < |program.sections| && 0 <= j < |program.sections[i].materials|
        && program.sections[i].materials[j].id == id)
  {
    SectionsInOrder(DocumentSections(program, longreadIds), contents);
    FailureNamesListedMaterial(program, longreadIds, contents);
    SuccessCoversListedMaterials(program, longreadIds, contents);
  }

  /** A failed assembly of the written-out materials names a listed
      material of the program that has no body. */
  lemma FailureNamesListedMaterial(program: Program, longreadIds: seq<Id>, contents: seq<Longread>)
    ensures var r := AssembleMaterials(EmittedMaterials(DocumentSections(program, longreadIds)), contents);
      r.Failure? ==>
        r.error.id in longreadIds && !HasContent(contents, r.error.id)
        && exists i, j :: (0 <= i < |program.sections| && 0 <= j < |program.sections[i].materials|
          && program.sections[i].materials[j].id == r.error.id)
  {
    var emitted := EmittedMaterials(DocumentSections(program, longreadIds));
    var r := AssembleMaterials(emitted, contents);
    if r.Failure? {
      EmittedFromProgram(program, longreadIds);
      var k :| 0 <= k < |emitted| && r.error == MissingContent(emitted[k].id) && !HasContent(contents, emitted[k].id);
      assert emitted[k] in emitted;
      var i :| 0 <= i < |program.sections| && emitted[k] in program.sections[i].materials;
      var j :| 0 <= j < |program.sections[i].materials| && program.sections[i].materials[j] == emitted[k];
    }
  }

  /** A successful assembly of the written-out materials means every
      listed material of the program has a body. */
  lemma SuccessCoversListedMaterials(program: Program, longreadIds: seq<Id>, contents: seq<Longread>)
    ensures AssembleMaterials(EmittedMaterials(DocumentSections(program, longreadIds)), contents).Success? ==>
      forall i, j :: (0 <= i < |program.sections| && 0 <= j < |program.sections[i].materials|
        && program.sections[i].materials[j].id in longreadIds) ==>
        HasContent(contents, program.sections[i].materials[j].id)
  {
    var emitted := EmittedMaterials(DocumentSections(program, longreadIds));
    if AssembleMaterials(emitted, contents).Success? {
      EmittedFromProgram(program, longreadIds);
      forall i, j | 0 <= i < |program.sections| && 0 <= j < |program.sections[i].materials|
        && program.sections[i].materials[j].id in longreadIds
        ensures HasContent(contents, program.sections[i].materials[j].id)
      {
        var m := program.sections[i].materials[j];
        assert m in emitted;
        MemberHasContent(emitted, contents, m);
      }
    }
  }

  lemma MemberHasContent(ms: seq<Material>, contents: seq<Longread>, m: Material)
    requires AssembleMaterials(ms, contents).Success? && m in ms
    ensures HasContent(contents, m.id)
  {
    var k :| 0 <= k < |ms| && ms[k] == m;
  }
}
