/** newParseCam: the .cam job file as a job description and a list of
    sections, one per output file. */
module CamParser {
  import opened PyLib
  import opened LineMatch
  import opened CamCursor
  import opened Diagnostics

  /** The tag on the first line of every CAM processor job file. */
  const JobHeader := "CAM Processor Job"

  /** The keys of the job file's lines. */
  const NameKey: Key := "Name"
  const PromptKey: Key := "Prompt"
  const DeviceKey: Key := "Device"
  const WheelKey: Key := "Wheel"
  const RackKey: Key := "Rack"
  const ScaleKey: Key := "Scale"
  const OutputKey: Key := "Output"
  const FlagsKey: Key := "Flags"
  const EmulateKey: Key := "Emulate"
  const OffsetKey: Key := "Offset"
  const SheetKey: Key := "Sheet"
  const ToleranceKey: Key := "Tolerance"
  const PenKey: Key := "Pen"
  const PageKey: Key := "Page"
  const LayersKey: Key := "Layers"
  const ColorsKey: Key := "Colors"
  const SectionKey: Key := "Section"
  const DescriptionKey: Key := "Description"

  /** One `[tag]` section's dict: its tag and the sixteen fields, in the
      order they must appear. */
  datatype Section = Section(
    tag: string,
    name: FieldValue,
    prompt: FieldValue,
    device: FieldValue,
    wheel: FieldValue,
    rack: FieldValue,
    scale: FieldValue,
    output: FieldValue,
    flags: FieldValue,
    emulate: FieldValue,
    offset: FieldValue,
    sheet: FieldValue,
    tolerance: FieldValue,
    pen: FieldValue,
    page: FieldValue,
    layers: FieldValue,
    colors: FieldValue)

  /** The fields newParseCam insists on: without a truthy value for one of
      them the section is dropped and parsing stops. */
  predicate HasRequiredFields(sec: Section) {
    && Truthy(sec.device)
    && Truthy(sec.output)
    && Truthy(sec.flags)
    && Truthy(sec.emulate)
    && Truthy(sec.offset)
    && Truthy(sec.layers)
  }

  /** newParseCam's result dict: the 'Description' and 'Sections' entries,
      each of which may be missing. */
  datatype CamJob = CamJob(description: Option<map<string, string>>, sections: Option<seq<Section>>)

  /** A parse's result and the warnings and errors it reported. */
  datatype ParseReport = ParseReport(result: Outcome<CamJob>, warnings: nat, errors: nat)

  /** What reading one section does: append a section and go on with the
      remaining lines, stop parsing after reporting warnings and errors, or
      raise. */
  datatype SectionStep =
    | Appended(section: Section, rest: seq<string>)
    | Stopped(warnings: nat, errors: nat)
    | Crashed(error: PyError)

  /** The `Section=<tag>` declaration loop over the upcoming lines s, with
      acc the tags declared so far. It consumes exactly the run of
      `Section=` lines; if that run reaches the end of input, the next
      match attempt raises. */
  function SectionDeclsOn(s: seq<string>, acc: seq<string>): (r: Stepped<seq<string>>)
    ensures |r.rest| <= |s|
    decreases |s|
  {
    if s == [] then Stepped(Raises(TypeError), s)
    else
      match KeyEqValue(SectionKey, s[0])
      case Some(tag) => SectionDeclsOn(s[1..], acc + [tag])
      case None => Stepped(Returns(acc), s)
  }

  /** The declaration loop leaves a suffix of its input. It raises only by
      running out of lines; otherwise it appends one tag per consumed line,
      each line being `Section=` and that tag, and stops before a line that
      is not a declaration. */
  lemma {:induction false} SectionDeclsOnSpec(s: seq<string>, acc: seq<string>)
    ensures var r := SectionDeclsOn(s, acc);
      && IsSuffix(r.rest, s)
      && (r.result.Raises? ==> r.result.error == TypeError && r.rest == [])
      && (r.result.Returns? ==> var k := |s| - |r.rest|;
        && |r.result.value| == |acc| + k
        && r.result.value[..|acc|] == acc
        && (forall i | 0 <= i < k :: s[i] == "Section=" + r.result.value[|acc| + i])
        && r.rest != [] && KeyEqValue(SectionKey, r.rest[0]).None?)
    decreases |s|
  {
    if s != [] && KeyEqValue(SectionKey, s[0]).Some? {
      var tag := KeyEqValue(SectionKey, s[0]).value;
      KeyEqValueSpec(SectionKey, s[0]);
      SectionDeclsOnSpec(s[1..], acc + [tag]);
      var r := SectionDeclsOn(s[1..], acc + [tag]);
      assert SectionDeclsOn(s, acc) == r;
      assert s[|s| - |r.rest|..] == s[1..][|s| - 1 - |r.rest|..];
      if r.result.Returns? {
        var vs := r.result.value;
        assert vs[..|acc|] == (acc + [tag])[..|acc|] == acc;
        forall i | 0 <= i < |s| - |r.rest| ensures s[i] == "Section=" + vs[|acc| + i] {
          if i == 0 {
            assert vs[|acc|] == (acc + [tag])[|acc|];
          } else {
            assert s[i] == s[1..][i - 1];
          }
        }
      }
    }
  }

  /** What reading one field does: a value and the lines after it, a
      required field without a truthy value, or an exception. */
  datatype FieldStep =
    | Got(value: FieldValue, rest: seq<string>)
    | Missing
    | Failed(error: PyError)

  /** One field of a section, read with getKeyValuePairs from the upcoming
      lines s; a required field must come out truthy. The field fails
      exactly when getKeyValuePairs raises, is missing exactly when it is
      required and getKeyValuePairs returns a falsy value, and otherwise
      holds what getKeyValuePairs returned. */
  function FieldOn(s: seq<string>, key: Key, required: bool): (f: FieldStep)
    ensures f.Got? ==> |f.rest| <= |s| && (required ==> Truthy(f.value))
    ensures f.Failed? <==> KeyValuePairsOn(s, key).result.Raises?
    ensures f.Missing? <==>
      required && KeyValuePairsOn(s, key).result.Returns? && !Truthy(KeyValuePairsOn(s, key).result.value)
    ensures f.Got? ==> Stepped(Returns(f.value), f.rest) == KeyValuePairsOn(s, key)
  {
    var v := KeyValuePairsOn(s, key);
    match v.result
    case Raises(err) => Failed(err)
    case Returns(value) => if required && !Truthy(value) then Missing else Got(value, v.rest)
  }

  /** How a section that could not be read ends the parse: a missing
      required field is one error, an exception propagates. */
  function Halt(f: FieldStep): SectionStep
    requires !f.Got?
  {
    if f.Missing? then Stopped(0, 1) else Crashed(f.error)
  }

  /** A section's fields in the order they must appear, each with whether
      the section needs a truthy value for it. */
  const SectionFields: seq<(Key, bool)> := [
    (NameKey, false),
    (PromptKey, false),
    (DeviceKey, true),
    (WheelKey, false),
    (RackKey, false),
    (ScaleKey, false),
    (OutputKey, true),
    (FlagsKey, true),
    (EmulateKey, true),
    (OffsetKey, true),
    (SheetKey, false),
    (ToleranceKey, false),
    (PenKey, false),
    (PageKey, false),
    (LayersKey, true),
    (ColorsKey, false)]

  /** What reading a run of fields does: their values and the lines after
      them, or the first field that could not be read. */
  datatype FieldsStep =
    | AllRead(values: seq<FieldValue>, rest: seq<string>)
    | Halted(failed: FieldStep)

  /** The fields from position i of fields on, read one after another from
      the upcoming lines s after values have been read; the first one that
      cannot be read ends the run. */
  function FieldsFrom(s: seq<string>, fields: seq<(Key, bool)>, i: nat, values: seq<FieldValue>): (r: FieldsStep)
    requires i <= |fields|
    ensures r.AllRead? ==> |r.values| == |values| + |fields| - i && |r.rest| <= |s|
    ensures r.Halted? ==> !r.failed.Got?
    decreases |fields| - i
  {
    if i == |fields| then AllRead(values, s)
    else
      match FieldOn(s, fields[i].0, fields[i].1)
      case Got(v, rest) => FieldsFrom(rest, fields, i + 1, values + [v])
      case failed => Halted(failed)
  }

  /** Every field a run requires came out truthy when the whole run was
      read. */
  lemma {:induction false} FieldsFromRequired(s: seq<string>, fields: seq<(Key, bool)>, i: nat, values: seq<FieldValue>)
    requires i <= |fields| && |values| == i
    requires forall j | 0 <= j < i && fields[j].1 :: Truthy(values[j])
    ensures var r := FieldsFrom(s, fields, i, values);
      r.AllRead? ==> forall j | 0 <= j < |fields| && fields[j].1 :: Truthy(r.values[j])
    decreases |fields| - i
  {
    if i < |fields| {
      var f := FieldOn(s, fields[i].0, fields[i].1);
      if f.Got? {
        var vs := values + [f.value];
        forall j | 0 <= j < i + 1 && fields[j].1 ensures Truthy(vs[j]) {
          if j < i {
            assert vs[j] == values[j];
          }
        }
        FieldsFromRequired(f.rest, fields, i + 1, vs);
      }
    }
  }

  /** One turn of the field loop: reading field i either adds its value to
      those read so far or ends the run. */
  lemma FieldsTurn(s: seq<string>, fields: seq<(Key, bool)>, i: nat, values: seq<FieldValue>, f: FieldStep)
    requires i < |fields| && f == FieldOn(s, fields[i].0, fields[i].1)
    ensures f.Got? ==> FieldsFrom(s, fields, i, values) == FieldsFrom(f.rest, fields, i + 1, values + [f.value])
    ensures !f.Got? ==> FieldsFrom(s, fields, i, values) == Halted(f)
  {
  }

  /** The section dict built from the sixteen values, in table order. */
  function SectionOf(tag: string, vs: seq<FieldValue>): Section
    requires |vs| == |SectionFields|
  {
    Section(tag, vs[0], vs[1], vs[2], vs[3], vs[4], vs[5], vs[6], vs[7], vs[8], vs[9], vs[10], vs[11], vs[12], vs[13], vs[14], vs[15])
  }

  /** The sixteen fields of a section tagged tag, read from the upcoming
      lines s. */
  function SectionFieldsOn(s: seq<string>, tag: string): (r: SectionStep)
    ensures r.Appended? ==> |r.rest| <= |s| && r.section.tag == tag && HasRequiredFields(r.section)
    ensures r.Stopped? ==> r.warnings == 0 && r.errors == 1
  {
    match FieldsFrom(s, SectionFields, 0, [])
    case AllRead(vs, rest) =>
      FieldsFromRequired(s, SectionFields, 0, []);
      Appended(SectionOf(tag, vs), rest)
    case Halted(failed) => Halt(failed)
  }

  /** One turn of the section loop over the upcoming lines s, of which
      there are at least two (the loop runs only before eof): a blank line,
      a declared `[tag]`, then the fields. A line that is not blank ends
      the parse silently; a missing or undeclared tag ends it with one
      warning. */
  function ReadSectionOn(s: seq<string>, declared: seq<string>): (r: SectionStep)
    requires |s| >= 2
    ensures r.Appended? ==> |r.rest| <= |s| - 2 && r.section.tag in declared && HasRequiredFields(r.section)
    ensures r.Appended? ==> s[0] == "" && ValInSqBrackets(s[1]) == Some(r.section.tag)
    ensures r.Stopped? ==> r.warnings + r.errors <= 1
    ensures s[0] != "" ==> r == Stopped(0, 0)
    ensures s[0] == "" && (ValInSqBrackets(s[1]).None? || ValInSqBrackets(s[1]).value !in declared) ==>
      r == Stopped(1, 0)
  {
    if s[0] != "" then Stopped(0, 0)
    else
      match ValInSqBrackets(s[1])
      case None => Stopped(1, 0)
      case Some(tag) => if tag in declared then SectionFieldsOn(s[2..], tag) else Stopped(1, 0)
  }

  /** The sections list and the diagnostics of the section loop. */
  datatype SectionsReport = SectionsReport(result: Outcome<seq<Section>>, warnings: nat, errors: nat)

  /** The section loop over the upcoming lines s, with acc the sections read
      so far: it runs while at least two lines are upcoming and no section
      has failed. */
  function SectionsOn(s: seq<string>, declared: seq<string>, acc: seq<Section>): (r: SectionsReport)
    ensures r.result.Returns? ==> acc <= r.result.value
    ensures r.result.Returns? ==> forall i | |acc| <= i < |r.result.value| ::
      r.result.value[i].tag in declared && HasRequiredFields(r.result.value[i])
    ensures r.warnings + r.errors <= 1
    ensures r.result.Raises? ==> r.warnings == 0 && r.errors == 0
    decreases |s|
  {
    if |s| <= 1 then SectionsReport(Returns(acc), 0, 0)
    else
      match ReadSectionOn(s, declared)
      case Appended(sec, rest) => SectionsOn(rest, declared, acc + [sec])
      case Stopped(w, e) => SectionsReport(Returns(acc), w, e)
      case Crashed(err) => SectionsReport(Raises(err), 0, 0)
  }

  /** One turn of the section loop over at least two upcoming lines. */
  lemma SectionsTurn(s: seq<string>, declared: seq<string>, acc: seq<Section>, step: SectionStep)
    requires |s| >= 2 && step == ReadSectionOn(s, declared)
    ensures step.Appended? ==> SectionsOn(s, declared, acc) == SectionsOn(step.rest, declared, acc + [step.section])
    ensures step.Stopped? ==> SectionsOn(s, declared, acc) == SectionsReport(Returns(acc), step.warnings, step.errors)
    ensures step.Crashed? ==> SectionsOn(s, declared, acc) == SectionsReport(Raises(step.error), 0, 0)
  {
  }

  /** newParseCam on the lines of a .cam file (no lines: the file could not
      be opened). */
  function ParseCam(lines: seq<string>): (p: ParseReport)
    ensures p.warnings + p.errors <= 1
    ensures p.result.Raises? ==> p.warnings == 0 && p.errors == 0
  {
    if lines == [] then ParseReport(Returns(CamJob(None, None)), 0, 1)
    else
      var s := Stripped(lines);
      if ValInSqBrackets(s[0]) != Some(JobHeader) then ParseReport(Returns(CamJob(None, None)), 0, 1)
      else ParseAfterHeader(s[1..])
  }

  /** newParseCam after the header line: the description, the section
      declarations, then the sections. */
  function ParseAfterHeader(s: seq<string>): (p: ParseReport)
    ensures p.warnings + p.errors <= 1
    ensures p.result.Raises? ==> p.warnings == 0 && p.errors == 0
  {
    var description := MultiLangOn(s, DescriptionKey, map[]);
    if description.result.Raises? then ParseReport(Raises(description.result.error), 0, 0)
    else
      var decls := SectionDeclsOn(description.rest, []);
      if decls.result.Raises? then ParseReport(Raises(decls.result.error), 0, 0)
      else if decls.result.value == [] then
        ParseReport(Returns(CamJob(Some(description.result.value), None)), 0, 1)
      else
        var body := SectionsOn(decls.rest, decls.result.value, []);
        match body.result
        case Raises(err) => ParseReport(Raises(err), 0, 0)
        case Returns(sections) =>
          ParseReport(Returns(CamJob(Some(description.result.value), Some(sections))), body.warnings, body.errors)
  }

  /** One field of the section being read: getKeyValuePairs, then for a
      required field the error when it is not truthy. */
  method ReadField(cam: CamFile, key: Key, required: bool, ctx: RunContext) returns (f: FieldStep)
    requires cam.Valid()
    modifies cam, ctx
    ensures cam.Valid() && old(cam.lineIndex) <= cam.lineIndex
    ensures f == FieldOn(old(Upcoming(cam.State())), key, required)
    ensures f.Got? ==> Upcoming(cam.State()) == f.rest
    ensures |Upcoming(cam.State())| <= old(|Upcoming(cam.State())|)
    ensures ctx.warnings == old(ctx.warnings)
    ensures ctx.errors == old(ctx.errors) + (if f.Missing? then 1 else 0)
  {
    var v := cam.GetKeyValuePairs(key);
    if v.Raises? {
      return Failed(v.error);
    }
    if required && !Truthy(v.value) {
      ctx.Error();
      return Missing;
    }
    f := Got(v.value, Upcoming(cam.State()));
  }

  /** Field i of fields read after values: one turn of the field run. */
  method ReadFieldTurn(cam: CamFile, fields: seq<(Key, bool)>, i: nat, ghost values: seq<FieldValue>, ctx: RunContext)
    returns (f: FieldStep)
    requires cam.Valid() && i < |fields|
    modifies cam, ctx
    ensures cam.Valid() && old(cam.lineIndex) <= cam.lineIndex
    ensures |Upcoming(cam.State())| <= old(|Upcoming(cam.State())|)
    ensures f.Got? ==>
      FieldsFrom(old(Upcoming(cam.State())), fields, i, values) ==
      FieldsFrom(Upcoming(cam.State()), fields, i + 1, values + [f.value])
    ensures !f.Got? ==> FieldsFrom(old(Upcoming(cam.State())), fields, i, values) == Halted(f)
    ensures ctx.warnings == old(ctx.warnings)
    ensures ctx.errors == old(ctx.errors) + (if f.Missing? then 1 else 0)
  {
    ghost var here := Upcoming(cam.State());
    f := ReadField(cam, fields[i].0, fields[i].1, ctx);
    FieldsTurn(here, fields, i, values, f);
  }

  /** The field reads of a section, one per entry of fields, until one
      fails. */
  method ReadFields(cam: CamFile, fields: seq<(Key, bool)>, ctx: RunContext) returns (r: FieldsStep)
    requires cam.Valid()
    modifies cam, ctx
    ensures cam.Valid() && old(cam.lineIndex) <= cam.lineIndex
    ensures r == FieldsFrom(old(Upcoming(cam.State())), fields, 0, [])
    ensures |Upcoming(cam.State())| <= old(|Upcoming(cam.State())|)
    ensures r.AllRead? ==> Upcoming(cam.State()) == r.rest
    ensures ctx.warnings == old(ctx.warnings)
    ensures ctx.errors == old(ctx.errors) + (if r.Halted? && r.failed.Missing? then 1 else 0)
  {
    ghost var start := Upcoming(cam.State());
    var values: seq<FieldValue> := [];
    var i := 0;
    while i < |fields|
      invariant cam.Valid() && old(cam.lineIndex) <= cam.lineIndex
      invariant i <= |fields| && |values| == i
      invariant |Upcoming(cam.State())| <= |start|
      invariant FieldsFrom(Upcoming(cam.State()), fields, i, values) == FieldsFrom(start, fields, 0, [])
      invariant ctx.warnings == old(ctx.warnings) && ctx.errors == old(ctx.errors)
    {
      var field := ReadFieldTurn(cam, fields, i, values, ctx);
      if !field.Got? {
        return Halted(field);
      }
      values := values + [field.value];
      i := i + 1;
    }
    r := AllRead(values, Upcoming(cam.State()));
  }

  /** One turn of newParseCam's section loop on the file cam. */
  method ReadSection(cam: CamFile, declared: seq<string>, ctx: RunContext) returns (step: SectionStep)
    requires cam.Valid() && 1 <= cam.lineIndex && !cam.Eof()
    modifies cam, ctx
    ensures cam.Valid() && old(cam.lineIndex) <= cam.lineIndex
    ensures |Upcoming(cam.State())| <= old(|Upcoming(cam.State())|)
    ensures |old(Upcoming(cam.State()))| >= 2
    ensures step == ReadSectionOn(old(Upcoming(cam.State())), declared)
    ensures step.Appended? ==> Upcoming(cam.State()) == step.rest
    ensures ctx.warnings == old(ctx.warnings) + (if step.Stopped? then step.warnings else 0)
    ensures ctx.errors == old(ctx.errors) + (if step.Stopped? then step.errors else 0)
  {
    ghost var s := Upcoming(cam.State());
    EofUpcoming(cam.State());
    assert cam.currentLineString == Some(s[0]);
    var blank := cam.SkipBlankLine();
    if !blank {
      return Stopped(0, 0);
    }
    assert Upcoming(cam.State()) == s[1..];
    var thisSection := cam.GetValInSqBrackets();
    assert thisSection == Returns(ValInSqBrackets(s[1]));
    if thisSection.value.None? || thisSection.value.value !in declared {
      ctx.Warning();
      return Stopped(1, 0);
    }
    assert Upcoming(cam.State()) == s[2..];
    step := ReadTaggedSection(cam, thisSection.value.value, ctx);
  }

  /** The field reads of a section whose `[tag]` line has been matched. */
  method ReadTaggedSection(cam: CamFile, tag: string, ctx: RunContext) returns (step: SectionStep)
    requires cam.Valid()
    modifies cam, ctx
    ensures cam.Valid() && old(cam.lineIndex) <= cam.lineIndex
    ensures |Upcoming(cam.State())| <= old(|Upcoming(cam.State())|)
    ensures step == SectionFieldsOn(old(Upcoming(cam.State())), tag)
    ensures step.Appended? ==> Upcoming(cam.State()) == step.rest
    ensures ctx.warnings == old(ctx.warnings)
    ensures ctx.errors == old(ctx.errors) + (if step.Stopped? then step.errors else 0)
  {
    var fields := ReadFields(cam, SectionFields, ctx);
    match fields
    case AllRead(values, rest) =>
      step := Appended(SectionOf(tag, values), rest);
    case Halted(failed) =>
      step := Halt(failed);
  }

  /** newParseCam's `Section=` loop: the declared tags, in order. */
  method ReadSectionDecls(cam: CamFile) returns (r: Outcome<seq<string>>)
    requires cam.Valid() && 1 <= cam.lineIndex
    modifies cam
    ensures cam.Valid() && 1 <= cam.lineIndex
    ensures Stepped(r, Upcoming(cam.State())) == SectionDeclsOn(old(Upcoming(cam.State())), [])
  {
    ghost var start := Upcoming(cam.State());
    var sectionList: seq<string> := [];
    var maybeSection := true;
    while maybeSection
      invariant cam.Valid() && 1 <= cam.lineIndex
      invariant maybeSection ==> SectionDeclsOn(Upcoming(cam.State()), sectionList) == SectionDeclsOn(start, [])
      invariant !maybeSection ==>
        Stepped(Returns(sectionList), Upcoming(cam.State())) == SectionDeclsOn(start, [])
      decreases |Upcoming(cam.State())|, maybeSection
    {
      var sectionValue := cam.GetKeyEqValue(SectionKey);
      if sectionValue.Raises? {
        return Raises(sectionValue.error);
      }
      match sectionValue.value
      case Some(tag) =>
        sectionList := sectionList + [tag];
      case None =>
        maybeSection := false;
    }
    r := Returns(sectionList);
  }

  /** newParseCam's section loop: the sections read before eof or before
      the first one that stops the parse, with its diagnostics. */
  method ReadSections(cam: CamFile, declared: seq<string>, ctx: RunContext) returns (r: Outcome<seq<Section>>)
    requires cam.Valid() && 1 <= cam.lineIndex
    modifies cam, ctx
    ensures var report := SectionsOn(old(Upcoming(cam.State())), declared, []);
      && r == report.result
      && ctx.warnings == old(ctx.warnings) + report.warnings
      && ctx.errors == old(ctx.errors) + report.errors
  {
    ghost var report := SectionsOn(Upcoming(cam.State()), declared, []);
    var sections: seq<Section> := [];
    while !cam.Eof()
      invariant cam.Valid() && 1 <= cam.lineIndex
      invariant SectionsOn(Upcoming(cam.State()), declared, sections) == report
      invariant ctx.warnings == old(ctx.warnings) && ctx.errors == old(ctx.errors)
      decreases |Upcoming(cam.State())|
    {
      ghost var here := Upcoming(cam.State());
      var step := ReadSection(cam, declared, ctx);
      SectionsTurn(here, declared, sections, step);
      match step
      case Appended(section, _) =>
        sections := sections + [section];
      case Stopped(_, _) =>
        return Returns(sections);
      case Crashed(err) =>
        return Raises(err);
    }
    EofUpcoming(cam.State());
    r := Returns(sections);
  }

  /** newParseCam after the header line has been matched: the description,
      the section declarations and the sections. */
  method ParseBody(cam: CamFile, ctx: RunContext) returns (result: Outcome<CamJob>)
    requires cam.Valid() && 1 <= cam.lineIndex
    modifies cam, ctx
    ensures var p := ParseAfterHeader(old(Upcoming(cam.State())));
      && result == p.result
      && ctx.warnings == old(ctx.warnings) + p.warnings
      && ctx.errors == old(ctx.errors) + p.errors
  {
    var d := cam.GetMultipleKeyLangEqQuotedVal(DescriptionKey);
    if d.Raises? {
      return Raises(d.error);
    }
    var sectionList := ReadSectionDecls(cam);
    if sectionList.Raises? {
      return Raises(sectionList.error);
    }
    if |sectionList.value| == 0 {
      ctx.Error();
      return Returns(CamJob(Some(d.value), None));
    }
    var sections := ReadSections(cam, sectionList.value, ctx);
    if sections.Raises? {
      return Raises(sections.error);
    }
    result := Returns(CamJob(Some(d.value), Some(sections.value)));
  }

  /** The two ways newParseCam gives up before the description, and where it
      goes on otherwise. */
  lemma ParseCamStart(lines: seq<string>)
    ensures lines == [] ==> ParseCam(lines) == ParseReport(Returns(CamJob(None, None)), 0, 1)
    ensures lines != [] && ValInSqBrackets(Stripped(lines)[0]) != Some(JobHeader) ==>
      ParseCam(lines) == ParseReport(Returns(CamJob(None, None)), 0, 1)
    ensures lines != [] && ValInSqBrackets(Stripped(lines)[0]) == Some(JobHeader) ==>
      ParseCam(lines) == ParseAfterHeader(Stripped(lines)[1..])
  {
  }

  /** newParseCam: the job parsed from lines, reporting its warnings and
      errors to ctx. */
  method NewParseCam(lines: seq<string>, ctx: RunContext) returns (result: Outcome<CamJob>)
    modifies ctx
    ensures var p := ParseCam(lines);
      && result == p.result
      && ctx.warnings == old(ctx.warnings) + p.warnings
      && ctx.errors == old(ctx.errors) + p.errors
  {
    ParseCamStart(lines);
    var cam := new CamFile(lines);
    if cam.maxLines == 0 {
      ctx.Error();
      return Returns(CamJob(None, None));
    }
    var _ := cam.GetNextLine();
    UpcomingFirst(lines);
    var val := cam.GetValInSqBrackets();
    if val != Returns(Some(JobHeader)) {
      ctx.Error();
      return Returns(CamJob(None, None));
    }
    result := ParseBody(cam, ctx);
  }
}
