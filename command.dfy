/** getEagleCommandFromCamSection: one eaglecon command line for one CAM
    section. */
module Command {
  import opened PyLib
  import opened CamCursor
  import opened CamParser
  import opened Diagnostics
  import opened OutputName
  import opened Layers
  import opened Flags

  /** What getOffsets makes of the section's offset, as the text str()
      gives for each offset that is not zero. */
  datatype Offsets = Offsets(x: Option<string>, y: Option<string>)

  /** One ` -<letter><offset>` option, left out for a zero offset. */
  function OffsetOption(letter: char, offset: Option<string>): (r: string)
    ensures r == "" <==> offset.None?
  {
    if offset.Some? then " -" + [letter] + offset.value else ""
  }

  /** The ` -x<offset>` and ` -y<offset>` options; re.match on a value that
      is not a string raises TypeError. */
  function OffsetOptions(offset: FieldValue, given: Offsets): (r: Outcome<string>)
    ensures r.Raises? <==> !offset.Scalar?
    ensures r.Raises? ==> r.error == TypeError
    ensures r == Returns("") <==> offset.Scalar? && given == Offsets(None, None)
  {
    if !offset.Scalar? then Raises(TypeError)
    else
      var x, y := OffsetOption('x', given.x), OffsetOption('y', given.y);
      assert |x + y| == |x| + |y|;
      Returns(x + y)
  }

  /** The ` -W"<wheel>` part: present only for a non-empty wheel name. */
  function WheelPart(wheel: Option<string>): (r: string)
    ensures r == "" <==> wheel.None? || wheel.value == ""
  {
    if wheel.Some? && wheel.value != "" then "\" -W\"" + wheel.value else ""
  }

  /** The command string once every part is known. */
  function Assemble(eagle: string, flags: string, device: string, output: string,
                    wheel: Option<string>, offsets: string, board: string, layers: string): string
  {
    "\"" + eagle + "\"" + flags + " -X -d\"" + device + "\" -o\"" + output
      + WheelPart(wheel) + "\"" + offsets + " \"" + board + "\" " + layers
  }

  /** tail is a suffix of c. */
  predicate EndsWith(c: string, tail: string) {
    |tail| <= |c| && c[|c| - |tail|..] == tail
  }

  /** A command or the exception that ended the attempt, with the warnings
      about unknown layers given on the way. */
  datatype CommandReport = CommandReport(result: Outcome<string>, warnings: nat)

  /** getEagleCommandFromCamSection, in its order of evaluation: the output
      and wheel names, the layers (with their warnings), the flags, the
      offsets, and last the concatenation, which raises TypeError on a
      device that is not a string or an output name that is None. The
      board's layer map and the offsets come in as board and offsets. */
  function EagleCommand(sec: Section, boardPath: string, eagle: string, parts: PathParts,
                        board: map<string, string>, offsets: Offsets): (r: CommandReport)
    ensures r.warnings <= LayerWarnings(sec.layers, board)
  {
    var output := GetOutputName(sec.output, boardPath, parts);
    var wheel := GetOutputName(sec.wheel, boardPath, parts);
    if output.Raises? then CommandReport(Raises(output.error), 0)
    else if wheel.Raises? then CommandReport(Raises(wheel.error), 0)
    else
      var layers := ValidLayers(sec.layers, board);
      var warnings := LayerWarnings(sec.layers, board);
      var flags := FlagString(sec.flags);
      var offsetOptions := OffsetOptions(sec.offset, offsets);
      if layers.Raises? then CommandReport(Raises(layers.error), warnings)
      else if flags.Raises? then CommandReport(Raises(flags.error), warnings)
      else if offsetOptions.Raises? then CommandReport(Raises(offsetOptions.error), warnings)
      else if !sec.device.Scalar? || output.value.None? then CommandReport(Raises(TypeError), warnings)
      else
        CommandReport(Returns(Assemble(eagle, flags.value, sec.device.text, output.value.value,
          wheel.value, offsetOptions.value, boardPath, layers.value)), warnings)
  }

  /** getEagleCommandFromCamSection with the layer and flag loops run as
      methods and the warnings counted in ctx. */
  method GetEagleCommand(sec: Section, boardPath: string, eagle: string, parts: PathParts,
                         board: map<string, string>, offsets: Offsets, ctx: RunContext)
    returns (r: Outcome<string>)
    modifies ctx
    ensures r == EagleCommand(sec, boardPath, eagle, parts, board, offsets).result
    ensures ctx.warnings == old(ctx.warnings) + EagleCommand(sec, boardPath, eagle, parts, board, offsets).warnings
    ensures ctx.errors == old(ctx.errors)
  {
    var output := GetOutputName(sec.output, boardPath, parts);
    var wheel := GetOutputName(sec.wheel, boardPath, parts);
    if output.Raises? {
      return Raises(output.error);
    }
    if wheel.Raises? {
      return Raises(wheel.error);
    }
    var layers := GetValidLayers(sec.layers, board, ctx);
    if layers.Raises? {
      return Raises(layers.error);
    }
    var flags := GetFlagString(sec.flags);
    if flags.Raises? {
      return Raises(flags.error);
    }
    var offsetOptions := OffsetOptions(sec.offset, offsets);
    if offsetOptions.Raises? {
      return Raises(offsetOptions.error);
    }
    if !sec.device.Scalar? || output.value.None? {
      return Raises(TypeError);
    }
    return Returns(Assemble(eagle, flags.value, sec.device.text, output.value.value,
      wheel.value, offsetOptions.value, boardPath, layers.value));
  }

  /** The conditions under which a command comes out: a board path, an
      output template and a device that are non-empty strings, a wheel that
      is not a localized dict, layers, flags and offset that are strings,
      and at most seven flag settings. */
  predicate CommandPossible(sec: Section, boardPath: string) {
    && boardPath != ""
    && sec.output.Scalar? && sec.output.text != ""
    && !(sec.wheel.Localized? && Truthy(sec.wheel))
    && sec.layers.Scalar?
    && sec.flags.Scalar? && |Split(sec.flags.text)| <= |Defaults|
    && sec.offset.Scalar?
    && sec.device.Scalar?
  }

  /** The command comes out exactly when CommandPossible holds; every other
      section raises. */
  lemma CommandSucceeds(sec: Section, boardPath: string, eagle: string, parts: PathParts,
                        board: map<string, string>, offsets: Offsets)
    ensures EagleCommand(sec, boardPath, eagle, parts, board, offsets).result.Returns?
      <==> CommandPossible(sec, boardPath)
  {
  }

  /** An assembled command starts with the quoted eaglecon path, the flag
      options, `-X`, the quoted device and the output name, and ends with
      the quoted board path and the layers. */
  lemma AssembleShape(eagle: string, flags: string, device: string, output: string,
                      wheel: Option<string>, offsets: string, board: string, layers: string)
    ensures "\"" + eagle + "\"" + flags + " -X -d\"" + device + "\" -o\"" + output
      <= Assemble(eagle, flags, device, output, wheel, offsets, board, layers)
    ensures EndsWith(Assemble(eagle, flags, device, output, wheel, offsets, board, layers),
      " \"" + board + "\" " + layers)
  {
    var head := "\"" + eagle + "\"" + flags + " -X -d\"" + device + "\" -o\"" + output;
    var mid := WheelPart(wheel) + "\"" + offsets;
    var tail := " \"" + board + "\" " + layers;
    var c := Assemble(eagle, flags, device, output, wheel, offsets, board, layers);
    assert c == head + mid + tail;
    assert (head + mid + tail)[..|head|] == head;
    assert (head + mid + tail)[|head + mid|..] == tail;
  }

  /** A command starts with the quoted eaglecon path, the flag options,
      `-X`, the quoted device and the expanded output name, and ends with
      the quoted board path and the valid layers. */
  lemma CommandShape(sec: Section, boardPath: string, eagle: string, parts: PathParts,
                     board: map<string, string>, offsets: Offsets)
    requires CommandPossible(sec, boardPath)
    ensures var c := EagleCommand(sec, boardPath, eagle, parts, board, offsets).result.value;
      && "\"" + eagle + "\"" + Options(Split(sec.flags.text)) + " -X -d\"" + sec.device.text
           + "\" -o\"" + Expand(sec.output.text, parts) <= c
      && EndsWith(c, " \"" + boardPath + "\" " + ValidLayers(sec.layers, board).value)
  {
    CommandSucceeds(sec, boardPath, eagle, parts, board, offsets);
    var flags := Options(Split(sec.flags.text));
    var output := Expand(sec.output.text, parts);
    var wheel := GetOutputName(sec.wheel, boardPath, parts).value;
    var offsetOptions := OffsetOptions(sec.offset, offsets).value;
    var layers := ValidLayers(sec.layers, board).value;
    assert EagleCommand(sec, boardPath, eagle, parts, board, offsets).result.value
      == Assemble(eagle, flags, sec.device.text, output, wheel, offsetOptions, boardPath, layers);
    AssembleShape(eagle, flags, sec.device.text, output, wheel, offsetOptions, boardPath, layers);
  }

  /** The warnings are the layers the board does not list, provided the
      output and wheel names did not raise first: as many as the given
      layers that are missing from the command's layer list. */
  lemma CommandWarnings(sec: Section, boardPath: string, eagle: string, parts: PathParts,
                        board: map<string, string>, offsets: Offsets)
    requires CommandPossible(sec, boardPath)
    ensures EagleCommand(sec, boardPath, eagle, parts, board, offsets).warnings
      == |Dropped(Split(sec.layers.text), board)|
    ensures EagleCommand(sec, boardPath, eagle, parts, board, offsets).warnings
      == |Split(sec.layers.text)| - |Split(ValidLayers(sec.layers, board).value)|
  {
    KeptDroppedCount(Split(sec.layers.text), board);
    ValidLayersSplit(sec.layers.text, board);
  }

  /** For a section newParseCam returned and a non-empty board path, only
      a localized output, layers, flags, offset or device, a non-empty
      localized wheel, or more
      than seven flag settings, keep a command from coming out. */
  lemma ParsedSectionCommand(sec: Section, boardPath: string, eagle: string, parts: PathParts,
                             board: map<string, string>, offsets: Offsets)
    requires HasRequiredFields(sec) && boardPath != ""
    ensures EagleCommand(sec, boardPath, eagle, parts, board, offsets).result.Returns? <==>
      && !sec.output.Localized? && !(sec.wheel.Localized? && Truthy(sec.wheel))
      && !sec.layers.Localized? && !sec.flags.Localized?
      && !sec.offset.Localized? && !sec.device.Localized?
      && |Split(sec.flags.text)| <= |Defaults|
  {
    CommandSucceeds(sec, boardPath, eagle, parts, board, offsets);
  }
}
