/** What newParseCam guarantees about the job it returns. */
module ParseFacts {
  import opened PyLib
  import opened LineMatch
  import opened CamCursor
  import opened CamParser

  /** Every tag the declaration loop returns comes from a `Section=<tag>`
      line of its input. */
  lemma DeclaredTagsFromLines(s: seq<string>)
    ensures var r := SectionDeclsOn(s, []);
      r.result.Returns? ==> forall t | t in r.result.value :: "Section=" + t in s
  {
    SectionDeclsOnSpec(s, []);
    var r := SectionDeclsOn(s, []);
    if r.result.Returns? {
      forall t | t in r.result.value ensures "Section=" + t in s {
        var j :| 0 <= j < |r.result.value| && r.result.value[j] == t;
        assert s[j] == "Section=" + t;
      }
    }
  }

  /** A line of the lines after the description is a line of the file. */
  lemma DescriptionRestInLines(s: seq<string>, line: string)
    requires MultiLangOn(s, DescriptionKey, map[]).result.Returns?
    requires line in MultiLangOn(s, DescriptionKey, map[]).rest
    ensures line in s
  {
    MultiLangOnSpec(s, DescriptionKey, map[]);
    var k := |LangEntries(s, DescriptionKey)|;
    var j :| 0 <= j < |s[k..]| && s[k..][j] == line;
    assert s[k + j] == line;
  }

  /** Every section newParseCam returns was declared by a `Section=<tag>`
      line of the file and holds a truthy device, output, flags, emulate,
      offset and layers. */
  lemma ParsedSectionsDeclared(lines: seq<string>)
    ensures var p := ParseCam(lines);
      p.result.Returns? && p.result.value.sections.Some? ==>
        forall sec | sec in p.result.value.sections.value ::
          HasRequiredFields(sec) && "Section=" + sec.tag in Stripped(lines)
  {
    var p := ParseCam(lines);
    if lines != [] && ValInSqBrackets(Stripped(lines)[0]) == Some(JobHeader) {
      var s := Stripped(lines)[1..];
      assert p == ParseAfterHeader(s);
      var d := MultiLangOn(s, DescriptionKey, map[]);
      if d.result.Returns? {
        var decls := SectionDeclsOn(d.rest, []);
        DeclaredTagsFromLines(d.rest);
        if decls.result.Returns? && decls.result.value != [] {
          var body := SectionsOn(decls.rest, decls.result.value, []);
          if body.result.Returns? {
            assert p.result.value.sections == Some(body.result.value);
            forall sec | sec in body.result.value
              ensures HasRequiredFields(sec) && "Section=" + sec.tag in Stripped(lines)
            {
              var i :| 0 <= i < |body.result.value| && body.result.value[i] == sec;
              assert sec.tag in decls.result.value;
              DescriptionRestInLines(s, "Section=" + sec.tag);
            }
          }
        }
      }
    }
  }

  /** The file's first line is `[CAM Processor Job]` (text after the `]`
      is accepted too). */
  predicate HasHeader(lines: seq<string>) {
    lines != [] && ValInSqBrackets(Stripped(lines)[0]) == Some(JobHeader)
  }

  /** The file has its header and a description, but no `Section=` line
      follows the description. */
  predicate NoDeclarations(lines: seq<string>) {
    && HasHeader(lines)
    && var d := MultiLangOn(Stripped(lines)[1..], DescriptionKey, map[]);
    && d.result.Returns?
    && SectionDeclsOn(d.rest, []).result == Returns([])
  }

  /** newParseCam leaves out the 'Sections' entry exactly when the file is
      empty, lacks the header, or declares no section; each of these is
      one error and no warning. */
  lemma NoSectionsCases(lines: seq<string>)
    ensures var p := ParseCam(lines);
      (p.result.Returns? && p.result.value.sections.None?) <==>
        (!HasHeader(lines) || NoDeclarations(lines))
    ensures !HasHeader(lines) ==> ParseCam(lines) == ParseReport(Returns(CamJob(None, None)), 0, 1)
    ensures NoDeclarations(lines) ==>
      var d := MultiLangOn(Stripped(lines)[1..], DescriptionKey, map[]);
      ParseCam(lines) == ParseReport(Returns(CamJob(Some(d.result.value), None)), 0, 1)
  {
    if HasHeader(lines) {
      var s := Stripped(lines)[1..];
      assert ParseCam(lines) == ParseAfterHeader(s);
      AfterHeaderNoSections(s);
    } else {
      assert ParseCam(lines) == ParseReport(Returns(CamJob(None, None)), 0, 1);
    }
  }

  /** After the header, 'Sections' is left out exactly when the description
      loop returns and no `Section=` line follows it; that is one error. */
  lemma AfterHeaderNoSections(s: seq<string>)
    ensures var p := ParseAfterHeader(s);
      var d := MultiLangOn(s, DescriptionKey, map[]);
      (p.result.Returns? && p.result.value.sections.None?) <==>
        (d.result.Returns? && SectionDeclsOn(d.rest, []).result == Returns([]))
    ensures var d := MultiLangOn(s, DescriptionKey, map[]);
      d.result.Returns? && SectionDeclsOn(d.rest, []).result == Returns([]) ==>
        ParseAfterHeader(s) == ParseReport(Returns(CamJob(Some(d.result.value), None)), 0, 1)
  {
  }

  /** A `Key=""` line is consumed by getKeyValuePairs yet does not count:
      the field then comes from a `Key=value` line right after it, or is
      None with the empty line gone. */
  lemma EmptyQuotedFallsThrough(s: seq<string>, key: Key)
    requires |s| >= 2 && KeyLangEqQuotedVal(key, s[0]).None? && KeyEqQuotedVal(key, s[0]) == Some("")
    ensures KeyValuePairsOn(s, key) ==
      match KeyEqValue(key, s[1])
      case Some(v) => Stepped(Returns(Scalar(v)), s[2..])
      case None => Stepped(Returns(Absent), s[1..])
  {
    assert s[1..][1..] == s[2..];
  }
}
