/** The CamFile line cursor of Cam2Gerber.py and its matchers. Each matcher
    looks at the current line; on a match it consumes that line (one call of
    getNextLine), otherwise it leaves the cursor alone. At the end of input
    the current line is None, and every regex matcher then raises TypeError,
    as `re.match(pattern, None)` does. */
module CamCursor {
  import opened PyLib
  import opened LineMatch

  // ---------------------------------------------------------------------
  // The cursor as a value, and the lines it will still show.

  /** A CamFile's state: all lines as read, the index of the next unread
      line, and the current line (None before the first read and after the
      last). */
  datatype Cursor = Cursor(lines: seq<string>, index: nat, current: Option<string>)

  /** What every getNextLine keeps true: the index stays within the lines,
      the current line is the stripped line just read, and it is None only
      before the first read or once the lines are used up. */
  predicate WellFormed(c: Cursor) {
    && c.index <= |c.lines|
    && (c.current.Some? ==> 1 <= c.index && c.current.value == RStrip(c.lines[c.index - 1]))
    && (c.current.None? ==> c.index == 0 || c.index == |c.lines|)
  }

  /** getNextLine: read the next line, right-stripped, or None at the end. */
  function Next(c: Cursor): (n: Cursor)
    ensures WellFormed(c) ==> WellFormed(n)
    ensures n.lines == c.lines && c.index <= n.index
  {
    if c.index < |c.lines| then Cursor(c.lines, c.index + 1, Some(RStrip(c.lines[c.index])))
    else Cursor(c.lines, c.index, None)
  }

  /** Every line of ls, right-stripped. */
  function Stripped(ls: seq<string>): (r: seq<string>)
    ensures |r| == |ls|
  {
    if ls == [] then [] else [RStrip(ls[0])] + Stripped(ls[1..])
  }

  /** The lines the matchers will see as the current line from now on: the
      current line, then every unread line stripped. Empty when the current
      line is None. */
  function Upcoming(c: Cursor): seq<string> {
    match c.current
    case None => []
    case Some(line) => [line] + (if c.index <= |c.lines| then Stripped(c.lines[c.index..]) else [])
  }

  /** All of s but its first line; nothing when s is empty. */
  function Rest(s: seq<string>): (r: seq<string>)
    ensures |r| == if s == [] then 0 else |s| - 1
  {
    if s == [] then [] else s[1..]
  }

  /** Once reading has started, getNextLine drops exactly the first
      upcoming line. */
  lemma UpcomingNext(c: Cursor)
    requires WellFormed(c) && 1 <= c.index
    ensures Upcoming(Next(c)) == Rest(Upcoming(c))
  {
    if c.index < |c.lines| {
      var unread := c.lines[c.index..];
      assert Upcoming(c) == [c.current.value] + Stripped(unread);
      assert Upcoming(Next(c)) == [RStrip(unread[0])] + Stripped(unread[1..]) by {
        assert unread[1..] == c.lines[c.index + 1..];
      }
      StrippedCons(unread);
    } else {
      assert Upcoming(Next(c)) == [];
    }
  }

  /** Stripping lines strips the first one, then the others. */
  lemma StrippedCons(ls: seq<string>)
    requires ls != []
    ensures Stripped(ls) == [RStrip(ls[0])] + Stripped(ls[1..])
  {
  }

  /** The first read shows every line, stripped. */
  lemma UpcomingFirst(lines: seq<string>)
    requires lines != []
    ensures Upcoming(Next(Cursor(lines, 0, None))) == Stripped(lines)
  {
    StrippedCons(lines);
  }

  /** eof() is true as soon as the last line is the current line: once
      reading has started, exactly when at most one line is upcoming. */
  lemma EofUpcoming(c: Cursor)
    requires WellFormed(c) && 1 <= c.index
    ensures c.index >= |c.lines| <==> |Upcoming(c)| <= 1
  {
  }

  // ---------------------------------------------------------------------
  // The matchers over the upcoming lines.

  /** A matcher's result and the lines upcoming after it. */
  datatype Stepped<+T> = Stepped(result: Outcome<T>, rest: seq<string>)

  /** The (language, value) pairs of the run of `Key[lang]="value"` lines
      at the start of s. */
  function LangEntries(s: seq<string>, key: Key): (es: seq<(string, string)>)
    ensures |es| <= |s|
  {
    if s == [] then []
    else
      match KeyLangEqQuotedVal(key, s[0])
      case None => []
      case Some(entry) => [entry] + LangEntries(s[1..], key)
  }

  /** The run is maximal: its lines are exactly the `Key[lang]="value"`
      lines before the first line of another shape. */
  lemma {:induction false} LangEntriesRun(s: seq<string>, key: Key)
    ensures var es := LangEntries(s, key);
      && (forall i | 0 <= i < |es| :: KeyLangEqQuotedVal(key, s[i]) == Some(es[i]))
      && (|es| < |s| ==> KeyLangEqQuotedVal(key, s[|es|]).None?)
    decreases |s|
  {
    if s != [] && KeyLangEqQuotedVal(key, s[0]).Some? {
      LangEntriesRun(s[1..], key);
    }
  }

  /** The dict built from pairs in order: a later pair for the same
      language overwrites an earlier one. */
  function Collect(acc: map<string, string>, es: seq<(string, string)>): map<string, string>
    decreases |es|
  {
    if es == [] then acc else Collect(acc[es[0].0 := es[0].1], es[1..])
  }

  /** Gathering more pairs never loses a language. */
  lemma {:induction false} CollectGrows(acc: map<string, string>, es: seq<(string, string)>)
    ensures acc.Keys <= Collect(acc, es).Keys
    decreases |es|
  {
    if es != [] {
      CollectGrows(acc[es[0].0 := es[0].1], es[1..]);
    }
  }

  /** The dict holds exactly the languages of acc and of the pairs. */
  lemma {:induction false} CollectKeys(acc: map<string, string>, es: seq<(string, string)>)
    ensures Collect(acc, es).Keys == acc.Keys + (set i | 0 <= i < |es| :: es[i].0)
    decreases |es|
  {
    if es != [] {
      CollectKeys(acc[es[0].0 := es[0].1], es[1..]);
      var tail := set i | 0 <= i < |es| - 1 :: es[1..][i].0;
      var all := set i | 0 <= i < |es| :: es[i].0;
      assert all == {es[0].0} + tail by {
        forall l | l in all ensures l in {es[0].0} + tail {
          var i :| 0 <= i < |es| && es[i].0 == l;
          if i > 0 {
            assert es[1..][i - 1].0 == l;
          }
        }
      }
    }
  }

  /** A language the pairs do not mention keeps its earlier value. */
  lemma {:induction false} CollectUntouched(acc: map<string, string>, es: seq<(string, string)>, l: string)
    requires l in acc && forall j | 0 <= j < |es| :: es[j].0 != l
    ensures l in Collect(acc, es) && Collect(acc, es)[l] == acc[l]
    decreases |es|
  {
    if es != [] {
      assert es[0].0 != l;
      assert forall j | 0 <= j < |es| - 1 :: es[1..][j] == es[j + 1];
      CollectUntouched(acc[es[0].0 := es[0].1], es[1..], l);
    }
  }

  /** A language's value is the one of its last pair: a later line for the
      same language overwrites an earlier one. */
  lemma {:induction false} CollectLast(acc: map<string, string>, es: seq<(string, string)>, i: nat)
    requires i < |es| && forall j | i < j < |es| :: es[j].0 != es[i].0
    ensures es[i].0 in Collect(acc, es) && Collect(acc, es)[es[i].0] == es[i].1
    decreases i
  {
    var next := acc[es[0].0 := es[0].1];
    assert forall j | 0 <= j < |es| - 1 :: es[1..][j] == es[j + 1];
    if i == 0 {
      CollectUntouched(next, es[1..], es[0].0);
    } else {
      CollectLast(next, es[1..], i - 1);
    }
  }

  /** getMultipleKeyLangEqQuotedVal over the upcoming lines s, with acc the
      dict gathered so far. It consumes exactly the run of
      `Key[lang]="value"` lines; if that run reaches the end of input, the
      next match attempt raises. */
  function MultiLangOn(s: seq<string>, key: Key, acc: map<string, string>): (r: Stepped<map<string, string>>)
    ensures |r.rest| <= |s| && (r.result.Returns? ==> r.rest != [])
    decreases |s|
  {
    if s == [] then Stepped(Raises(TypeError), s)
    else
      match KeyLangEqQuotedVal(key, s[0])
      case Some(entry) => MultiLangOn(s[1..], key, acc[entry.0 := entry.1])
      case None => Stepped(Returns(acc), s)
  }

  /** The loop consumes the whole run of `Key[lang]="value"` lines and
      gathers their pairs into the dict; a run that reaches the end of input
      raises. */
  lemma {:induction false} MultiLangOnSpec(s: seq<string>, key: Key, acc: map<string, string>)
    ensures var es := LangEntries(s, key);
      MultiLangOn(s, key, acc) ==
        if |es| == |s| then Stepped(Raises(TypeError), [])
        else Stepped(Returns(Collect(acc, es)), s[|es|..])
    decreases |s|
  {
    if s != [] {
      match KeyLangEqQuotedVal(key, s[0])
      case Some(entry) =>
        var es := LangEntries(s, key);
        MultiLangOnSpec(s[1..], key, acc[entry.0 := entry.1]);
        assert es == [entry] + LangEntries(s[1..], key);
        assert es[0] == entry && es[1..] == LangEntries(s[1..], key);
        if |es| < |s| {
          assert s[|es|..] == s[1..][|es| - 1..];
        }
      case None =>
    }
  }

  /** A field's value: a string, a dict from language code to string, or
      None when no line of the field's shapes was there. */
  datatype FieldValue = Absent | Scalar(text: string) | Localized(texts: map<string, string>)

  /** Python truthiness of a field value. */
  predicate Truthy(v: FieldValue) {
    match v
    case Absent => false
    case Scalar(t) => t != ""
    case Localized(m) => m != map[]
  }

  /** r is what is left of s after some of its first lines were consumed. */
  predicate IsSuffix(r: seq<string>, s: seq<string>) {
    |r| <= |s| && r == s[|s| - |r|..]
  }

  /** getKeyValuePairs over the upcoming lines: the `Key[lang]="value"` run
      first, then `Key="value"`, then `Key=value`; the first truthy result
      wins. */
  function KeyValuePairsOn(s: seq<string>, key: Key): (r: Stepped<FieldValue>)
    ensures |r.rest| <= |s|
  {
    var multi := MultiLangOn(s, key, map[]);
    if multi.result.Raises? then Stepped(Raises(multi.result.error), multi.rest)
    else if multi.result.value != map[] then Stepped(Returns(Localized(multi.result.value)), multi.rest)
    else ScalarFallback(multi.rest, key)
  }

  /** The rest of getKeyValuePairs once no `Key[lang]="value"` line was
      found: a non-empty `Key="value"`, else `Key=value` on the line after
      a `Key=""` line or on the same line. */
  function ScalarFallback(t: seq<string>, key: Key): (r: Stepped<FieldValue>)
    requires t != []
    ensures |r.rest| <= |t|
  {
    var quoted := KeyEqQuotedVal(key, t[0]);
    if quoted.Some? && quoted.value != "" then Stepped(Returns(Scalar(quoted.value)), t[1..])
    else
      var u := if quoted.Some? then t[1..] else t;
      if u == [] then Stepped(Raises(TypeError), u)
      else
        match KeyEqValue(key, u[0])
        case Some(v) => Stepped(Returns(Scalar(v)), u[1..])
        case None => Stepped(Returns(Absent), u)
  }

  /** The scalar forms consume some first lines and raise only TypeError. */
  lemma ScalarFallbackSuffix(t: seq<string>, key: Key)
    requires t != []
    ensures var r := ScalarFallback(t, key);
      IsSuffix(r.rest, t) && (r.result.Raises? ==> r.result.error == TypeError)
  {
    var quoted := KeyEqQuotedVal(key, t[0]);
    if quoted.Some? && quoted.value != "" {
      SliceSuffix(t, 1);
    } else {
      var m := if quoted.Some? then 1 else 0;
      var u := t[m..];
      assert u == if quoted.Some? then t[1..] else t;
      SliceSuffix(t, m);
      if u != [] {
        assert u[1..] == t[m + 1..];
        SliceSuffix(t, m + 1);
      }
    }
  }

  /** A suffix of a suffix is a suffix. */
  lemma SuffixOfSuffix(a: seq<string>, b: seq<string>, c: seq<string>)
    requires IsSuffix(a, b) && IsSuffix(b, c)
    ensures IsSuffix(a, c)
  {
    assert c[|c| - |b|..][|b| - |a|..] == c[|c| - |a|..];
  }

  /** getKeyValuePairs consumes some first lines of its input and raises
      only TypeError. */
  lemma KeyValuePairsOnSuffix(s: seq<string>, key: Key)
    ensures var r := KeyValuePairsOn(s, key);
      IsSuffix(r.rest, s) && (r.result.Raises? ==> r.result.error == TypeError)
  {
    var es := LangEntries(s, key);
    MultiLangOnSpec(s, key, map[]);
    var multi := MultiLangOn(s, key, map[]);
    if multi.result.Raises? {
      SliceSuffix(s, |s|);
    } else {
      SliceSuffix(s, |es|);
      if multi.result.value == map[] {
        ScalarFallbackSuffix(multi.rest, key);
        SuffixOfSuffix(ScalarFallback(multi.rest, key).rest, multi.rest, s);
      }
    }
  }

  /** Dropping the first n lines leaves a suffix. */
  lemma SliceSuffix(s: seq<string>, n: nat)
    requires n <= |s|
    ensures IsSuffix(s[n..], s)
  {
  }

  /** A dict result is non-empty and took exactly the run of
      `Key[lang]="value"` lines. */
  lemma KeyValuePairsOnLocalized(s: seq<string>, key: Key)
    ensures var r := KeyValuePairsOn(s, key);
      r.result.Returns? && r.result.value.Localized? ==>
        r.result.value.texts != map[] && r.rest == s[|LangEntries(s, key)|..]
  {
    MultiLangOnSpec(s, key, map[]);
  }

  /** Finding nothing consumes nothing, or the one `Key=""` line that
      matched yet did not count. */
  lemma KeyValuePairsOnAbsent(s: seq<string>, key: Key)
    ensures var r := KeyValuePairsOn(s, key);
      r.result == Returns(Absent) ==>
        r.rest == s || (s != [] && KeyEqQuotedVal(key, s[0]) == Some("") && r.rest == s[1..])
  {
    var es := LangEntries(s, key);
    MultiLangOnSpec(s, key, map[]);
    if es != [] {
      CollectGrows(map[][es[0].0 := es[0].1], es[1..]);
      assert es[0].0 in Collect(map[], es);
    } else if s != [] {
      assert s[0..] == s;
    }
  }

  /** The three shapes in getKeyValuePairs' order, from the first upcoming
      line: a `Key[lang]="value"` line starts a run whose pairs make the
      dict (or, when the run reaches the end of input, the next match
      raises). */
  lemma KeyValuePairsOnLangLine(s: seq<string>, key: Key)
    requires s != [] && KeyLangEqQuotedVal(key, s[0]).Some?
    ensures var es := LangEntries(s, key);
      KeyValuePairsOn(s, key) ==
        if |es| == |s| then Stepped(Raises(TypeError), [])
        else Stepped(Returns(Localized(Collect(map[], es))), s[|es|..])
  {
    var es := LangEntries(s, key);
    MultiLangOnSpec(s, key, map[]);
    CollectGrows(map[][es[0].0 := es[0].1], es[1..]);
    assert es[0].0 in Collect(map[], es);
  }

  /** Otherwise a `Key="value"` line with a non-empty value gives that
      value and is consumed. */
  lemma KeyValuePairsOnQuotedLine(s: seq<string>, key: Key, v: string)
    requires s != [] && KeyEqQuotedVal(key, s[0]) == Some(v) && v != ""
    ensures KeyValuePairsOn(s, key) == Stepped(Returns(Scalar(v)), s[1..])
  {
    ShapesOfKey(key, s[0]);
  }

  /** Otherwise a `Key=value` line gives the rest of the line and is
      consumed. */
  lemma KeyValuePairsOnPlainLine(s: seq<string>, key: Key, v: string)
    requires s != [] && KeyEqQuotedVal(key, s[0]).None? && KeyEqValue(key, s[0]) == Some(v)
    ensures KeyValuePairsOn(s, key) == Stepped(Returns(Scalar(v)), s[1..])
  {
    ShapesOfKey(key, s[0]);
  }

  /** A line of none of the three shapes gives None and stays upcoming. */
  lemma KeyValuePairsOnOtherLine(s: seq<string>, key: Key)
    requires s != [] && NoFieldShape(key, s[0])
    ensures KeyValuePairsOn(s, key) == Stepped(Returns(Absent), s)
  {
  }

  /** At the end of input the first match attempt raises TypeError. */
  lemma KeyValuePairsOnEnd(key: Key)
    ensures KeyValuePairsOn([], key) == Stepped(Raises(TypeError), [])
  {
  }

  // ---------------------------------------------------------------------
  // The CamFile class.

  /** A .cam file's lines and the cursor over them. */
  class CamFile {
    const allLines: seq<string>
    const maxLines: nat
    var lineIndex: nat
    var currentLineString: Option<string>

    ghost predicate Valid()
      reads this
    {
      maxLines == |allLines| && WellFormed(State())
    }

    /** The cursor as a value. */
    function State(): Cursor
      reads this
    {
      Cursor(allLines, lineIndex, currentLineString)
    }

    /** The lines are taken as read; nothing is current yet. */
    constructor (lines: seq<string>)
      ensures Valid() && allLines == lines && maxLines == |lines|
      ensures lineIndex == 0 && currentLineString == None
    {
      allLines := lines;
      maxLines := |lines|;
      lineIndex := 0;
      currentLineString := None;
    }

    /** getNextLine: the next line right-stripped, or None once all lines
        are read; either way it becomes the current line. */
    method GetNextLine() returns (result: Option<string>)
      requires Valid()
      modifies this
      ensures Valid() && State() == Next(old(State()))
      ensures result == currentLineString && lineIndex <= maxLines
      ensures old(lineIndex) < maxLines ==>
        lineIndex == old(lineIndex) + 1 && result == Some(RStrip(allLines[old(lineIndex)]))
      ensures old(lineIndex) >= maxLines ==> lineIndex == old(lineIndex) && result == None
      ensures old(lineIndex) >= 1 ==> Upcoming(State()) == Rest(old(Upcoming(State())))
    {
      result := None;
      if lineIndex < maxLines {
        result := Some(RStrip(allLines[lineIndex]));
        lineIndex := lineIndex + 1;
      }
      currentLineString := result;
      if old(lineIndex) >= 1 {
        UpcomingNext(old(State()));
      }
    }

    /** isLinePrefix: does the current line start with prefix? Slicing None
        raises. */
    function IsLinePrefix(prefix: string): (r: Outcome<bool>)
      reads this
      ensures r.Raises? <==> currentLineString.None?
      ensures r == Returns(true) <==> currentLineString.Some? && prefix <= currentLineString.value
    {
      match currentLineString
      case None => Raises(TypeError)
      case Some(line) => Returns(prefix == line[..if |prefix| <= |line| then |prefix| else |line|])
    }

    /** eof: all lines have been read into the current line (the last one may
        still be current and unconsumed): once reading has started, exactly
        when at most the current line is upcoming. */
    function Eof(): (r: bool)
      reads this
      ensures Valid() && 1 <= lineIndex ==> (r <==> |Upcoming(State())| <= 1)
    {
      lineIndex >= maxLines
    }

    /** skipBlankLine: consume the current line if it is empty or None. */
    method SkipBlankLine() returns (result: bool)
      requires Valid()
      modifies this
      ensures Valid() && old(lineIndex) <= lineIndex
      ensures result <==> old(currentLineString) in {None, Some("")}
      ensures State() == if result then Next(old(State())) else old(State())
      ensures old(lineIndex) >= 1 ==>
        Upcoming(State()) == if result then Rest(old(Upcoming(State()))) else old(Upcoming(State()))
    {
      result := false;
      if currentLineString == None || currentLineString == Some("") {
        var _ := GetNextLine();
        result := true;
      }
    }

    /** getKeyEqValue: `Key=value` on the current line. */
    method GetKeyEqValue(key: Key) returns (value: Outcome<Option<string>>)
      requires Valid()
      modifies this
      ensures Valid() && old(lineIndex) <= lineIndex
      ensures old(currentLineString).None? ==> value == Raises(TypeError)
      ensures old(currentLineString).Some? ==> value == Returns(KeyEqValue(key, old(currentLineString).value))
      ensures State() == if value.Returns? && value.value.Some? then Next(old(State())) else old(State())
      ensures Upcoming(State()) ==
        if value.Returns? && value.value.Some? then Rest(old(Upcoming(State()))) else old(Upcoming(State()))
    {
      var pattern := key + "=";
      var isPrefix := IsLinePrefix(pattern);
      if isPrefix.Raises? {
        return Raises(isPrefix.error);
      }
      KeyEqValueSpec(key, currentLineString.value);
      value := Returns(None);
      if isPrefix.value {
        value := Returns(Some(currentLineString.value[|pattern|..]));
        var _ := GetNextLine();
      }
    }

    /** getKeyLangEqQuotedVal: `Key[lang]="value"` on the current line. */
    method GetKeyLangEqQuotedVal(key: Key) returns (result: Outcome<Option<(string, string)>>)
      requires Valid()
      modifies this
      ensures Valid() && old(lineIndex) <= lineIndex
      ensures old(currentLineString).None? ==> result == Raises(TypeError)
      ensures old(currentLineString).Some? ==>
        result == Returns(KeyLangEqQuotedVal(key, old(currentLineString).value))
      ensures State() == if result.Returns? && result.value.Some? then Next(old(State())) else old(State())
      ensures Upcoming(State()) ==
        if result.Returns? && result.value.Some? then Rest(old(Upcoming(State()))) else old(Upcoming(State()))
    {
      if currentLineString.None? {
        return Raises(TypeError);
      }
      result := Returns(KeyLangEqQuotedVal(key, currentLineString.value));
      if result.value.Some? {
        var _ := GetNextLine();
      }
    }

    /** getMultipleKeyLangEqQuotedVal: the dict of the run of
        `Key[lang]="value"` lines that starts at the current line. */
    method GetMultipleKeyLangEqQuotedVal(key: Key) returns (result: Outcome<map<string, string>>)
      requires Valid()
      modifies this
      ensures Valid() && old(lineIndex) <= lineIndex
      ensures Stepped(result, Upcoming(State())) == MultiLangOn(old(Upcoming(State())), key, map[])
    {
      var matchingDone := false;
      var resultDict: map<string, string> := map[];
      while !matchingDone
        invariant Valid() && old(lineIndex) <= lineIndex
        invariant !matchingDone ==>
          MultiLangOn(Upcoming(State()), key, resultDict) == MultiLangOn(old(Upcoming(State())), key, map[])
        invariant matchingDone ==>
          Stepped(Returns(resultDict), Upcoming(State())) == MultiLangOn(old(Upcoming(State())), key, map[])
        decreases |Upcoming(State())|, !matchingDone
      {
        var parts := GetKeyLangEqQuotedVal(key);
        if parts.Raises? {
          return Raises(parts.error);
        }
        match parts.value
        case Some(entry) =>
          resultDict := resultDict[entry.0 := entry.1];
        case None =>
          matchingDone := true;
      }
      result := Returns(resultDict);
    }

    /** getValInSqBrackets: `[tag]` on the current line. */
    method GetValInSqBrackets() returns (result: Outcome<Option<string>>)
      requires Valid()
      modifies this
      ensures Valid() && old(lineIndex) <= lineIndex
      ensures old(currentLineString).None? ==> result == Raises(TypeError)
      ensures old(currentLineString).Some? ==> result == Returns(ValInSqBrackets(old(currentLineString).value))
      ensures State() == if result.Returns? && result.value.Some? then Next(old(State())) else old(State())
      ensures Upcoming(State()) ==
        if result.Returns? && result.value.Some? then Rest(old(Upcoming(State()))) else old(Upcoming(State()))
    {
      if currentLineString.None? {
        return Raises(TypeError);
      }
      result := Returns(ValInSqBrackets(currentLineString.value));
      if result.value.Some? {
        var _ := GetNextLine();
      }
    }

    /** getKeyEqQuotedVal: `Key="value"` on the current line. */
    method GetKeyEqQuotedVal(key: Key) returns (result: Outcome<Option<string>>)
      requires Valid()
      modifies this
      ensures Valid() && old(lineIndex) <= lineIndex
      ensures old(currentLineString).None? ==> result == Raises(TypeError)
      ensures old(currentLineString).Some? ==> result == Returns(KeyEqQuotedVal(key, old(currentLineString).value))
      ensures State() == if result.Returns? && result.value.Some? then Next(old(State())) else old(State())
      ensures Upcoming(State()) ==
        if result.Returns? && result.value.Some? then Rest(old(Upcoming(State()))) else old(Upcoming(State()))
    {
      if currentLineString.None? {
        return Raises(TypeError);
      }
      result := Returns(KeyEqQuotedVal(key, currentLineString.value));
      if result.value.Some? {
        var _ := GetNextLine();
      }
    }

    /** getKeyValuePairs: a field in any of its three shapes. */
    method GetKeyValuePairs(key: Key) returns (result: Outcome<FieldValue>)
      requires Valid()
      modifies this
      ensures Valid() && old(lineIndex) <= lineIndex
      ensures Stepped(result, Upcoming(State())) == KeyValuePairsOn(old(Upcoming(State())), key)
    {
      var multi := GetMultipleKeyLangEqQuotedVal(key);
      if multi.Raises? {
        return Raises(multi.error);
      }
      if multi.value != map[] {
        return Returns(Localized(multi.value));
      }
      var quoted := GetKeyEqQuotedVal(key);
      assert quoted.Returns?;
      if quoted.value.Some? && quoted.value.value != "" {
        return Returns(Scalar(quoted.value.value));
      }
      var plain := GetKeyEqValue(key);
      if plain.Raises? {
        return Raises(plain.error);
      }
      match plain.value
      case Some(v) => result := Returns(Scalar(v));
      case None => result := Returns(Absent);
    }
  }
}
