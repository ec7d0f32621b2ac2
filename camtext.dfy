/** The text of a well-formed CAM processor job file, and what newParseCam
    makes of it: the description, and every declared section in file order,
    with no warning and no error. */
module CamText {
  import opened PyLib
  import opened LineMatch
  import opened CamCursor
  import opened CamParser

  // ---------------------------------------------------------------------
  // Lines that rstrip leaves alone.

  /** A line without trailing whitespace. */
  predicate Unpadded(line: string) {
    line == [] || !IsSpace(line[|line| - 1])
  }

  predicate AllUnpadded(ls: seq<string>) {
    forall k | 0 <= k < |ls| :: Unpadded(ls[k])
  }

  lemma UnpaddedAppend(a: seq<string>, b: seq<string>)
    requires AllUnpadded(a) && AllUnpadded(b)
    ensures AllUnpadded(a + b)
  {
    forall k | 0 <= k < |a + b| ensures Unpadded((a + b)[k]) {
      if k >= |a| {
        assert (a + b)[k] == b[k - |a|];
      }
    }
  }

  /** Reading lines without trailing whitespace strips nothing. */
  lemma {:induction false} StrippedUnpadded(ls: seq<string>)
    requires AllUnpadded(ls)
    ensures Stripped(ls) == ls
    decreases |ls|
  {
    if ls != [] {
      RStripFixed(ls[0]);
      assert AllUnpadded(ls[1..]) by {
        forall k | 0 <= k < |ls| - 1 ensures Unpadded(ls[1..][k]) {
          assert ls[1..][k] == ls[k + 1];
        }
      }
      StrippedUnpadded(ls[1..]);
    }
  }

  // ---------------------------------------------------------------------
  // The fields of a section.

  /** The `Key="value"` line of a field. */
  function QuotedLine(key: Key, v: string): string {
    key + "=\"" + v + "\""
  }

  /** A `Key="value"` line with a non-empty value is read as that value,
      whatever lines follow it. */
  lemma QuotedLineRead(key: Key, v: string, rest: seq<string>)
    requires v != "" && '\n' !in v
    ensures KeyValuePairsOn([QuotedLine(key, v)] + rest, key) == Stepped(Returns(Scalar(v)), rest)
  {
    var s := [QuotedLine(key, v)] + rest;
    QuotedValOfLine(key, v);
    KeyValuePairsOnQuotedLine(s, key, v);
    assert s[1..] == rest;
  }

  /** A `Key="value"` line has no shape of any other key. */
  lemma QuotedLineOtherKey(k1: Key, k2: Key, v: string)
    requires k1 != k2
    ensures NoFieldShape(k2, QuotedLine(k1, v))
  {
    OtherKeyLine(k1, k2, "\"" + v + "\"");
    assert QuotedLine(k1, v) == k1 + "=" + ("\"" + v + "\"");
  }

  /** The fields from position i of fields on, as a file writes them: one
      `Key="value"` line for each required field, nothing for the others. */
  function FieldLines(fields: seq<(Key, bool)>, i: nat, vals: seq<string>): seq<string>
    requires i <= |fields| == |vals|
    decreases |fields| - i
  {
    if i == |fields| then []
    else (if fields[i].1 then [QuotedLine(fields[i].0, vals[i])] else []) + FieldLines(fields, i + 1, vals)
  }

  /** What is read for those fields: the written value of each required
      field, None for the others. */
  function FieldValues(fields: seq<(Key, bool)>, i: nat, vals: seq<string>): (r: seq<FieldValue>)
    requires i <= |fields| == |vals|
    ensures |r| == |fields| - i
    decreases |fields| - i
  {
    if i == |fields| then []
    else [if fields[i].1 then Scalar(vals[i]) else Absent] + FieldValues(fields, i + 1, vals)
  }

  /** One value per field, and the value of every required field is
      non-empty and on one line. */
  predicate ValuesFit(fields: seq<(Key, bool)>, vals: seq<string>) {
    && |vals| == |fields|
    && forall j | 0 <= j < |fields| && fields[j].1 :: vals[j] != "" && '\n' !in vals[j]
  }

  /** No key appears twice in fields. */
  predicate KeysDistinct(fields: seq<(Key, bool)>) {
    forall j, k | 0 <= j < k < |fields| :: fields[j].0 != fields[k].0
  }

  /** The field table of a section names each key once. */
  lemma SectionKeysDistinct()
    ensures KeysDistinct(SectionFields)
  {
  }

  /** The line after the fields written from position i on is not a line of
      any key before i: it is a later field's line or the blank line that
      follows the fields. */
  lemma {:induction false} FirstLineForeign(fields: seq<(Key, bool)>, i: nat, vals: seq<string>,
                                            after: seq<string>, key: Key)
    requires i <= |fields| == |vals| && after != [] && after[0] == ""
    requires forall j | i <= j < |fields| :: fields[j].0 != key
    ensures FieldLines(fields, i, vals) + after != []
    ensures NoFieldShape(key, (FieldLines(fields, i, vals) + after)[0])
    decreases |fields| - i
  {
    if i == |fields| {
      EmptyLineNoShape(key);
    } else if fields[i].1 {
      QuotedLineOtherKey(fields[i].0, key, vals[i]);
    } else {
      FirstLineForeign(fields, i + 1, vals, after, key);
    }
  }

  /** A written field is read from its line. */
  lemma WrittenFieldRead(key: Key, v: string, required: bool, tail: seq<string>)
    requires v != "" && '\n' !in v
    ensures FieldOn([QuotedLine(key, v)] + tail, key, required) == Got(Scalar(v), tail)
  {
    QuotedLineRead(key, v, tail);
  }

  /** A field that is not written reads as None and consumes nothing. */
  lemma UnwrittenFieldRead(fields: seq<(Key, bool)>, i: nat, vals: seq<string>, after: seq<string>)
    requires i < |fields| == |vals| && !fields[i].1 && KeysDistinct(fields)
    requires after != [] && after[0] == ""
    ensures var tail := FieldLines(fields, i + 1, vals) + after;
      FieldOn(tail, fields[i].0, false) == Got(Absent, tail)
  {
    var tail := FieldLines(fields, i + 1, vals) + after;
    FirstLineForeign(fields, i + 1, vals, after, fields[i].0);
    KeyValuePairsOnOtherLine(tail, fields[i].0);
  }

  /** One turn of the field loop over the written fields from position i
      on reads field i's value and goes on at the next field. */
  lemma FieldStepRead(fields: seq<(Key, bool)>, i: nat, vals: seq<string>,
                      values: seq<FieldValue>, after: seq<string>)
    requires i < |fields| && ValuesFit(fields, vals) && KeysDistinct(fields)
    requires after != [] && after[0] == ""
    ensures FieldsFrom(FieldLines(fields, i, vals) + after, fields, i, values)
      == FieldsFrom(FieldLines(fields, i + 1, vals) + after, fields, i + 1,
                    values + [if fields[i].1 then Scalar(vals[i]) else Absent])
  {
    var s := FieldLines(fields, i, vals) + after;
    var tail := FieldLines(fields, i + 1, vals) + after;
    if fields[i].1 {
      assert s == [QuotedLine(fields[i].0, vals[i])] + tail;
      WrittenFieldRead(fields[i].0, vals[i], true, tail);
    } else {
      assert s == tail;
      UnwrittenFieldRead(fields, i, vals, after);
    }
  }

  /** Reading the fields from position i on over their written lines reads
      each written value, None for each field that is not written, and
      stops at the blank line after them. */
  lemma {:induction false} FieldsFromText(fields: seq<(Key, bool)>, i: nat, vals: seq<string>,
                                          values: seq<FieldValue>, after: seq<string>)
    requires i <= |fields| && ValuesFit(fields, vals) && KeysDistinct(fields)
    requires after != [] && after[0] == ""
    ensures FieldsFrom(FieldLines(fields, i, vals) + after, fields, i, values)
      == AllRead(values + FieldValues(fields, i, vals), after)
    decreases |fields| - i
  {
    if i < |fields| {
      var v := if fields[i].1 then Scalar(vals[i]) else Absent;
      FieldStepRead(fields, i, vals, values, after);
      FieldsFromText(fields, i + 1, vals, values + [v], after);
      assert FieldValues(fields, i, vals) == [v] + FieldValues(fields, i + 1, vals);
      Associative(values, [v], FieldValues(fields, i + 1, vals));
    } else {
      assert FieldLines(fields, i, vals) + after == after;
      assert values + FieldValues(fields, i, vals) == values;
    }
  }

  /** The value read for field j is the written one, or None when the
      field is not written. */
  lemma {:induction false} FieldValuesAt(fields: seq<(Key, bool)>, i: nat, vals: seq<string>, j: nat)
    requires i <= j < |fields| == |vals|
    ensures FieldValues(fields, i, vals)[j - i] == if fields[j].1 then Scalar(vals[j]) else Absent
    decreases j - i
  {
    if i < j {
      FieldValuesAt(fields, i + 1, vals, j);
    }
  }

  // ---------------------------------------------------------------------
  // Sections.

  /** A section as a file writes it: its tag, and one value per field of
      the section table of which only the required fields' are written. */
  datatype SectionText = SectionText(tag: string, values: seq<string>)

  /** The tag is a word, and the values fit the section table. */
  predicate SectionFits(st: SectionText) {
    IsWord(st.tag) && ValuesFit(SectionFields, st.values)
  }

  predicate AllFit(sts: seq<SectionText>) {
    forall i | 0 <= i < |sts| :: SectionFits(sts[i])
  }

  /** A section's lines: the blank separator, `[tag]`, then its fields. */
  function BlockLines(st: SectionText): seq<string>
    requires SectionFits(st)
  {
    ["", "[" + st.tag + "]"] + FieldLines(SectionFields, 0, st.values)
  }

  /** The section dict newParseCam builds for it. */
  function SectionFor(st: SectionText): Section
    requires SectionFits(st)
  {
    SectionOf(st.tag, FieldValues(SectionFields, 0, st.values))
  }

  /** The section dict holds the tag, the six required values as written,
      and None for every other field. */
  lemma SectionForFields(st: SectionText)
    requires SectionFits(st)
    ensures var sec := SectionFor(st);
      && sec.tag == st.tag
      && sec.device == Scalar(st.values[2]) && sec.output == Scalar(st.values[6])
      && sec.flags == Scalar(st.values[7]) && sec.emulate == Scalar(st.values[8])
      && sec.offset == Scalar(st.values[9]) && sec.layers == Scalar(st.values[14])
      && sec.name == Absent && sec.prompt == Absent && sec.wheel == Absent && sec.rack == Absent
      && sec.scale == Absent && sec.sheet == Absent && sec.tolerance == Absent && sec.pen == Absent
      && sec.page == Absent && sec.colors == Absent
  {
    forall j | 0 <= j < |SectionFields|
      ensures FieldValues(SectionFields, 0, st.values)[j] ==
        if SectionFields[j].1 then Scalar(st.values[j]) else Absent
    {
      FieldValuesAt(SectionFields, 0, st.values, j);
    }
  }

  /** One pass of the section loop over a written section with a declared
      tag appends its dict and leaves the blank line that follows. */
  lemma BlockRead(st: SectionText, declared: seq<string>, after: seq<string>)
    requires SectionFits(st) && st.tag in declared && after != [] && after[0] == ""
    ensures ReadSectionOn(BlockLines(st) + after, declared) == Appended(SectionFor(st), after)
  {
    var s := BlockLines(st) + after;
    var fields := FieldLines(SectionFields, 0, st.values);
    assert s[0] == "" && s[1] == "[" + st.tag + "]" && s[2..] == fields + after;
    assert '\n' !in st.tag by {
      assert IsSpace('\n');
    }
    BracketValOfLine(st.tag);
    SectionKeysDistinct();
    FieldsFromText(SectionFields, 0, st.values, [], after);
  }

  /** The sections one after another. */
  function Blocks(sts: seq<SectionText>): seq<string>
    requires AllFit(sts)
  {
    if sts == [] then [] else BlockLines(sts[0]) + Blocks(sts[1..])
  }

  /** The section dicts of sts, in order. */
  function SectionsFor(sts: seq<SectionText>): (r: seq<Section>)
    requires AllFit(sts)
    ensures |r| == |sts|
  {
    if sts == [] then [] else [SectionFor(sts[0])] + SectionsFor(sts[1..])
  }

  /** The dict of section i is the one built from the i-th written
      section. */
  lemma {:induction false} SectionsForAt(sts: seq<SectionText>, i: nat)
    requires AllFit(sts) && i < |sts|
    ensures SectionsFor(sts)[i] == SectionFor(sts[i])
    decreases i
  {
    if i > 0 {
      SectionsForAt(sts[1..], i - 1);
    }
  }

  lemma Associative<T>(a: seq<T>, b: seq<T>, c: seq<T>)
    ensures a + b + c == a + (b + c)
  {
  }

  /** Sections followed by a final line start with a blank line. */
  lemma BlocksThenBlank(sts: seq<SectionText>)
    requires AllFit(sts)
    ensures Blocks(sts) + [""] != [] && (Blocks(sts) + [""])[0] == ""
  {
  }

  /** A written section with a declared tag, followed by a blank line, is
      one turn of the section loop that appends its dict. */
  lemma BlockStep(st: SectionText, declared: seq<string>, acc: seq<Section>, after: seq<string>)
    requires SectionFits(st) && st.tag in declared && after != [] && after[0] == ""
    ensures SectionsOn(BlockLines(st) + after, declared, acc) == SectionsOn(after, declared, acc + [SectionFor(st)])
  {
    BlockRead(st, declared, after);
    SectionsTurn(BlockLines(st) + after, declared, acc, Appended(SectionFor(st), after));
  }

  /** The section loop over written sections whose tags are declared,
      followed by one final line, appends every section in order and
      reports nothing. */
  lemma {:induction false} SectionsOnText(sts: seq<SectionText>, declared: seq<string>, acc: seq<Section>)
    requires AllFit(sts) && forall i | 0 <= i < |sts| :: sts[i].tag in declared
    ensures SectionsOn(Blocks(sts) + [""], declared, acc) == SectionsReport(Returns(acc + SectionsFor(sts)), 0, 0)
    decreases |sts|
  {
    if sts == [] {
      assert Blocks(sts) + [""] == [""] && acc + SectionsFor(sts) == acc;
    } else {
      var rest := sts[1..];
      var after := Blocks(rest) + [""];
      var sec := SectionFor(sts[0]);
      Associative(BlockLines(sts[0]), Blocks(rest), [""]);
      BlocksThenBlank(rest);
      BlockStep(sts[0], declared, acc, after);
      assert forall i | 0 <= i < |rest| :: rest[i] == sts[i + 1];
      SectionsOnText(rest, declared, acc + [sec]);
      assert SectionsFor(sts) == [sec] + SectionsFor(rest);
      Associative(acc, [sec], SectionsFor(rest));
    }
  }

  // ---------------------------------------------------------------------
  // The declarations and the description.

  /** The tags of sts, in order. */
  function Tags(sts: seq<SectionText>): (r: seq<string>)
    ensures |r| == |sts| && forall i | 0 <= i < |sts| :: r[i] == sts[i].tag
  {
    if sts == [] then [] else [sts[0].tag] + Tags(sts[1..])
  }

  /** One `Section=<tag>` line per section, in order. */
  function DeclLines(sts: seq<SectionText>): seq<string> {
    if sts == [] then [] else [SectionKey + "=" + sts[0].tag] + DeclLines(sts[1..])
  }

  /** The declaration loop over the `Section=` lines, followed by a blank
      line, declares every tag in order. */
  lemma {:induction false} DeclsRead(sts: seq<SectionText>, acc: seq<string>, rest: seq<string>)
    requires rest != [] && rest[0] == ""
    ensures SectionDeclsOn(DeclLines(sts) + rest, acc) == Stepped(Returns(acc + Tags(sts)), rest)
    decreases |sts|
  {
    if sts == [] {
      assert DeclLines(sts) + rest == rest && acc + Tags(sts) == acc;
      EmptyLineNoShape(SectionKey);
    } else {
      var line := SectionKey + "=" + sts[0].tag;
      var s := DeclLines(sts) + rest;
      assert s == [line] + (DeclLines(sts[1..]) + rest);
      KeyEqValueSpec(SectionKey, line);
      StripPrefixSpec(SectionKey + "=", line);
      assert line[|SectionKey| + 1..] == sts[0].tag;
      DeclsRead(sts[1..], acc + [sts[0].tag], rest);
      assert acc + [sts[0].tag] + Tags(sts[1..]) == acc + Tags(sts);
    }
  }

  /** A `Key[lang]="value"` line. */
  function LangLine(key: Key, lang: string, v: string): string {
    key + "[" + lang + "]=\"" + v + "\""
  }

  /** Description entries that read back as written: a non-empty language
      code, neither part holding a newline, and no `]="` in the value. */
  predicate DescriptionFits(ds: seq<(string, string)>) {
    forall i | 0 <= i < |ds| ::
      ds[i].0 != [] && '\n' !in ds[i].0 && '\n' !in ds[i].1 && NoLangMark(ds[i].1)
  }

  /** One `Description[lang]="value"` line per entry, in order. */
  function DescriptionLines(ds: seq<(string, string)>): seq<string> {
    if ds == [] then [] else [LangLine(DescriptionKey, ds[0].0, ds[0].1)] + DescriptionLines(ds[1..])
  }

  /** The description loop reads every entry, a later one for the same
      language overriding an earlier one, and stops at the first line that
      is not a description line. */
  lemma {:induction false} DescriptionRead(ds: seq<(string, string)>, acc: map<string, string>, rest: seq<string>)
    requires DescriptionFits(ds) && rest != [] && KeyLangEqQuotedVal(DescriptionKey, rest[0]).None?
    ensures MultiLangOn(DescriptionLines(ds) + rest, DescriptionKey, acc) == Stepped(Returns(Collect(acc, ds)), rest)
    decreases |ds|
  {
    if ds == [] {
      assert DescriptionLines(ds) + rest == rest;
    } else {
      var s := DescriptionLines(ds) + rest;
      assert s == [LangLine(DescriptionKey, ds[0].0, ds[0].1)] + (DescriptionLines(ds[1..]) + rest);
      LangValOfLine(DescriptionKey, ds[0].0, ds[0].1);
      assert forall i | 0 <= i < |ds| - 1 :: ds[1..][i] == ds[i + 1];
      DescriptionRead(ds[1..], acc[ds[0].0 := ds[0].1], rest);
    }
  }

  // ---------------------------------------------------------------------
  // A whole job file.

  /** The first line of a job file. */
  const HeaderLine: string := "[" + JobHeader + "]"

  /** A job file: the header, the description, the declarations, the
      sections, and one final blank line. */
  function JobLines(ds: seq<(string, string)>, sts: seq<SectionText>): seq<string>
    requires AllFit(sts)
  {
    [HeaderLine] + (DescriptionLines(ds) + (DeclLines(sts) + (Blocks(sts) + [""])))
  }

  /** No line of a job file ends in whitespace. */
  lemma JobLinesUnpadded(ds: seq<(string, string)>, sts: seq<SectionText>)
    requires AllFit(sts)
    ensures AllUnpadded(JobLines(ds, sts))
  {
    DescriptionUnpadded(ds);
    DeclsUnpadded(sts);
    BlocksUnpadded(sts);
    UnpaddedAppend(Blocks(sts), [""]);
    UnpaddedAppend(DeclLines(sts), Blocks(sts) + [""]);
    UnpaddedAppend(DescriptionLines(ds), DeclLines(sts) + (Blocks(sts) + [""]));
    UnpaddedAppend([HeaderLine], DescriptionLines(ds) + (DeclLines(sts) + (Blocks(sts) + [""])));
  }

  lemma {:induction false} DescriptionUnpadded(ds: seq<(string, string)>)
    ensures AllUnpadded(DescriptionLines(ds))
    decreases |ds|
  {
    if ds != [] {
      DescriptionUnpadded(ds[1..]);
      UnpaddedAppend([LangLine(DescriptionKey, ds[0].0, ds[0].1)], DescriptionLines(ds[1..]));
    }
  }

  lemma {:induction false} DeclsUnpadded(sts: seq<SectionText>)
    requires AllFit(sts)
    ensures AllUnpadded(DeclLines(sts))
    decreases |sts|
  {
    if sts != [] {
      var tag := sts[0].tag;
      assert (SectionKey + "=" + tag)[|SectionKey| + |tag|] == tag[|tag| - 1];
      assert forall i | 0 <= i < |sts| - 1 :: sts[1..][i] == sts[i + 1];
      DeclsUnpadded(sts[1..]);
      UnpaddedAppend([SectionKey + "=" + tag], DeclLines(sts[1..]));
    }
  }

  lemma {:induction false} FieldLinesUnpadded(fields: seq<(Key, bool)>, i: nat, vals: seq<string>)
    requires i <= |fields| == |vals|
    ensures AllUnpadded(FieldLines(fields, i, vals))
    decreases |fields| - i
  {
    if i < |fields| {
      FieldLinesUnpadded(fields, i + 1, vals);
      UnpaddedAppend(if fields[i].1 then [QuotedLine(fields[i].0, vals[i])] else [], FieldLines(fields, i + 1, vals));
    }
  }

  lemma {:induction false} BlocksUnpadded(sts: seq<SectionText>)
    requires AllFit(sts)
    ensures AllUnpadded(Blocks(sts))
    decreases |sts|
  {
    if sts != [] {
      FieldLinesUnpadded(SectionFields, 0, sts[0].values);
      UnpaddedAppend(["", "[" + sts[0].tag + "]"], FieldLines(SectionFields, 0, sts[0].values));
      assert forall i | 0 <= i < |sts| - 1 :: sts[1..][i] == sts[i + 1];
      BlocksUnpadded(sts[1..]);
      UnpaddedAppend(BlockLines(sts[0]), Blocks(sts[1..]));
    }
  }

  /** The three loops after the header, each ending without a diagnostic,
      one or more tags declared: the job holds what the description loop
      and the section loop returned. */
  lemma AfterHeaderChain(s: seq<string>, d: map<string, string>, s1: seq<string>, tags: seq<string>,
                         s2: seq<string>, secs: seq<Section>)
    requires MultiLangOn(s, DescriptionKey, map[]) == Stepped(Returns(d), s1)
    requires SectionDeclsOn(s1, []) == Stepped(Returns(tags), s2) && tags != []
    requires SectionsOn(s2, tags, []) == SectionsReport(Returns(secs), 0, 0)
    ensures ParseAfterHeader(s) == ParseReport(Returns(CamJob(Some(d), Some(secs))), 0, 0)
  {
  }

  /** After the header, the description, the declarations and the
      sections are read as written, with no warning and no error. */
  lemma ParseAfterHeaderText(ds: seq<(string, string)>, sts: seq<SectionText>)
    requires sts != [] && AllFit(sts) && DescriptionFits(ds)
    ensures ParseAfterHeader(DescriptionLines(ds) + (DeclLines(sts) + (Blocks(sts) + [""]))) ==
      ParseReport(Returns(CamJob(Some(Collect(map[], ds)), Some(SectionsFor(sts)))), 0, 0)
  {
    var body := Blocks(sts) + [""];
    var decls := DeclLines(sts) + body;
    assert decls[0] == SectionKey + "=" + sts[0].tag;
    OtherKeyLine(SectionKey, DescriptionKey, sts[0].tag);
    DescriptionRead(ds, map[], decls);
    BlocksThenBlank(sts);
    DeclsRead(sts, [], body);
    assert [] + Tags(sts) == Tags(sts);
    SectionsOnText(sts, Tags(sts), []);
    assert [] + SectionsFor(sts) == SectionsFor(sts);
    AfterHeaderChain(DescriptionLines(ds) + decls, Collect(map[], ds), decls, Tags(sts), body, SectionsFor(sts));
  }

  /** newParseCam on a job file that declares one or more sections and
      writes them in the same order reads its description and exactly
      those sections, in file order, with no warning and no error. */
  lemma ParseJobLines(ds: seq<(string, string)>, sts: seq<SectionText>)
    requires sts != [] && AllFit(sts) && DescriptionFits(ds)
    ensures ParseCam(JobLines(ds, sts)) ==
      ParseReport(Returns(CamJob(Some(Collect(map[], ds)), Some(SectionsFor(sts)))), 0, 0)
  {
    var lines := JobLines(ds, sts);
    JobLinesUnpadded(ds, sts);
    StrippedUnpadded(lines);
    BracketValOfLine(JobHeader);
    ParseCamStart(lines);
    assert lines[1..] == DescriptionLines(ds) + (DeclLines(sts) + (Blocks(sts) + [""]));
    ParseAfterHeaderText(ds, sts);
  }
}
