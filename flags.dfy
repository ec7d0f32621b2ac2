/** getFlagString: the CAM section's `flags` value, a list of seven 0/1
    settings, turned into eaglecon options for the settings that differ from
    the CAM processor's defaults. */
module Flags {
  import opened PyLib
  import opened CamCursor

  /** The defaults, in option order: mirror, rotate 90, rotate 180,
      positive coordinates, quick plot, optimize, fill pads. */
  const Defaults: seq<string> := ["0", "0", "0", "1", "0", "1", "1"]

  /** The option letter of each setting. */
  const Letters: string := "mrucqOf"

  /** The option for setting i with value v: nothing when v is the default,
      otherwise ` -<letter>` followed by '+' for "1" and '-' for anything
      else. */
  function FlagOption(i: nat, v: string): (r: string)
    requires i < |Defaults|
    ensures r == "" <==> v == Defaults[i]
    ensures r != "" ==> |r| == 4
  {
    if v == Defaults[i] then ""
    else " -" + [Letters[i]] + (if v == "1" then "+" else "-")
  }

  /** The options accumulated over the settings toks, in order. */
  function Options(toks: seq<string>): (r: string)
    requires |toks| <= |Defaults|
    ensures |r| % 4 == 0
    decreases |toks|
  {
    if toks == [] then ""
    else Options(toks[..|toks| - 1]) + FlagOption(|toks| - 1, toks[|toks| - 1])
  }

  /** getFlagString: a value without split() raises AttributeError; an
      eighth setting has no default to compare with and raises IndexError. */
  function FlagString(flags: FieldValue): (r: Outcome<string>)
    ensures r.Raises? <==> !flags.Scalar? || |Split(flags.text)| > |Defaults|
    ensures r.Raises? ==> r.error == (if flags.Scalar? then IndexError else AttributeError)
  {
    if !flags.Scalar? then Raises(AttributeError)
    else
      var toks := Split(flags.text);
      if |toks| > |Defaults| then Raises(IndexError) else Returns(Options(toks))
  }

  /** The loop of getFlagString over the split settings. */
  method GetFlagString(flags: FieldValue) returns (r: Outcome<string>)
    ensures r == FlagString(flags)
  {
    if !flags.Scalar? {
      return Raises(AttributeError);
    }
    var toks := Split(flags.text);
    var result := "";
    var index := 0;
    while index < |toks|
      invariant index <= |toks| && index <= |Defaults|
      invariant result == Options(toks[..index])
    {
      if index >= |Defaults| {
        return Raises(IndexError);
      }
      assert toks[..index + 1][..index] == toks[..index];
      result := result + FlagOption(index, toks[index]);
      index := index + 1;
    }
    assert toks[..index] == toks;
    return Returns(result);
  }

  lemma EmptyConcat(a: string, b: string)
    ensures a + b == "" <==> a == "" && b == ""
  {
    assert |a + b| == |a| + |b|;
  }

  /** Settings are a prefix of the defaults exactly when all but the last
      are, and the last is its default. */
  lemma DefaultsPrefixSnoc(toks: seq<string>)
    requires 0 < |toks| <= |Defaults|
    ensures var n := |toks| - 1;
      toks == Defaults[..|toks|] <==> toks[..n] == Defaults[..n] && toks[n] == Defaults[n]
  {
    var n := |toks| - 1;
    assert Defaults[..|toks|] == Defaults[..n] + [Defaults[n]];
    assert toks == toks[..n] + [toks[n]];
  }

  /** No option at all exactly when every setting given is its default. */
  lemma {:induction false} OptionsEmpty(toks: seq<string>)
    requires |toks| <= |Defaults|
    ensures Options(toks) == "" <==> toks == Defaults[..|toks|]
    decreases |toks|
  {
    if toks != [] {
      var n := |toks| - 1;
      OptionsEmpty(toks[..n]);
      EmptyConcat(Options(toks[..n]), FlagOption(n, toks[n]));
      DefaultsPrefixSnoc(toks);
    }
  }

  /** One setting as eaglecon reads it back: its letter and whether it is
      switched on. */
  datatype Switch = Switch(letter: char, on: bool)

  /** The settings that differ from their defaults, from the first on, as
      switches. */
  function ChangesFrom(toks: seq<string>, i: nat): (r: seq<Switch>)
    requires i <= |toks| <= |Defaults|
    ensures |r| <= |toks| - i
    decreases |toks| - i
  {
    if i == |toks| then []
    else
      (if toks[i] == Defaults[i] then [] else [Switch(Letters[i], toks[i] == "1")])
      + ChangesFrom(toks, i + 1)
  }

  /** Reads an option string back in steps of four characters
      ` -<letter><sign>`. */
  function Decode(s: string): (r: seq<Switch>)
    decreases |s|
  {
    if |s| < 4 then [] else [Switch(s[2], s[3] == '+')] + Decode(s[4..])
  }

  lemma {:induction false} DecodeAppend(a: string, b: string)
    requires |a| % 4 == 0
    ensures Decode(a + b) == Decode(a) + Decode(b)
    decreases |a|
  {
    if a == [] {
      assert a + b == b;
    } else {
      assert (a + b)[4..] == a[4..] + b;
      DecodeAppend(a[4..], b);
    }
  }

  /** The changes over the settings toks plus one more. */
  lemma {:induction false} ChangesFromSnoc(toks: seq<string>, i: nat)
    requires i < |toks| <= |Defaults|
    ensures var n := |toks| - 1;
      ChangesFrom(toks, i) == ChangesFrom(toks[..n], i) + ChangesFrom(toks, n)
    decreases |toks| - i
  {
    var n := |toks| - 1;
    if i < n {
      ChangesFromSnoc(toks, i + 1);
      assert toks[..n][i] == toks[i];
    }
  }

  /** The option string holds, in order, exactly the settings that differ
      from their defaults, each with its letter and with '+' exactly when
      it is "1". */
  lemma {:induction false} DecodeOptions(toks: seq<string>)
    requires |toks| <= |Defaults|
    ensures Decode(Options(toks)) == ChangesFrom(toks, 0)
    decreases |toks|
  {
    if toks != [] {
      var n := |toks| - 1;
      var opt := FlagOption(n, toks[n]);
      DecodeOptions(toks[..n]);
      DecodeAppend(Options(toks[..n]), opt);
      ChangesFromSnoc(toks, 0);
      if opt != "" {
        assert opt[4..] == [];
      }
    }
  }

  /** The defaults themselves produce no option. */
  lemma OptionsOfDefaults()
    ensures Options(Defaults) == ""
  {
    OptionsEmpty(Defaults);
  }

  /** "0" as the fourth setting after three defaults gives " -c-". */
  lemma OptionsNegativeCoordinates()
    ensures Options(["0", "0", "0", "0"]) == " -c-"
  {
    var t := ["0", "0", "0", "0"];
    OptionsEmpty(t[..3]);
    assert t[..3] == Defaults[..3];
  }

  /** A last setting that is its default adds no option. */
  lemma OptionsDefaultLast(toks: seq<string>)
    requires 0 < |toks| <= |Defaults| && toks[|toks| - 1] == Defaults[|toks| - 1]
    ensures Options(toks) == Options(toks[..|toks| - 1])
  {
    var front := Options(toks[..|toks| - 1]);
    assert front + "" == front;
  }

  /** Settings that are their defaults from position k on still are once
      the last setting is dropped, and the last one is its default. */
  lemma DefaultTailStep(toks: seq<string>, k: nat)
    requires k < |toks| <= |Defaults| && toks[k..] == Defaults[k..|toks|]
    ensures var n := |toks| - 1;
      toks[n] == Defaults[n] && toks[..n][k..] == Defaults[k..n]
  {
    var n := |toks| - 1;
    assert toks[n] == toks[k..][n - k] == Defaults[n];
    assert toks[..n][k..] == toks[k..][..n - k];
    assert Defaults[k..|toks|][..n - k] == Defaults[k..n];
  }

  /** Settings that keep their defaults from position k on add no option. */
  lemma {:induction false} OptionsDefaultTail(toks: seq<string>, k: nat)
    requires k <= |toks| <= |Defaults|
    requires toks[k..] == Defaults[k..|toks|]
    ensures Options(toks) == Options(toks[..k])
    decreases |toks|
  {
    if k < |toks| {
      var n := |toks| - 1;
      DefaultTailStep(toks, k);
      OptionsDefaultTail(toks[..n], k);
      assert toks[..n][..k] == toks[..k];
      OptionsDefaultLast(toks);
    } else {
      assert toks[..k] == toks;
    }
  }

  /** The settings 1 0 0 1 0 1 1 give " -m+": only mirroring differs from
      the defaults. */
  lemma OptionsMirrorOnly()
    ensures Options(["1", "0", "0", "1", "0", "1", "1"]) == " -m+"
  {
    var changed := ["1", "0", "0", "1", "0", "1", "1"];
    OptionsDefaultTail(changed, 1);
    assert changed[..1] == ["1"] && ["1"][..0] == [];
  }

  /** A flags value written as up to seven space-separated settings gives
      the options of those settings. */
  lemma FlagStringOfWords(toks: seq<string>)
    requires |toks| <= |Defaults| && forall k | 0 <= k < |toks| :: IsWord(toks[k])
    ensures FlagString(Scalar(JoinSpace(toks))) == Returns(Options(toks))
  {
    SplitJoinSpace(toks);
  }

  /** The settings of FlagStringMirrorOnly, joined. */
  lemma MirrorOnlyJoined()
    ensures JoinSpace(["1", "0", "0", "1", "0", "1", "1"]) == "1 0 0 1 0 1 1"
  {
    var toks := ["1", "0", "0", "1", "0", "1", "1"];
    assert JoinSpace(toks[6..]) == "1";
    assert JoinSpace(toks[5..]) == "1 1";
    assert JoinSpace(toks[4..]) == "0 1 1";
    assert JoinSpace(toks[3..]) == "1 0 1 1";
    assert JoinSpace(toks[2..]) == "0 1 0 1 1";
    assert JoinSpace(toks[1..]) == "0 0 1 0 1 1";
  }

  /** The flags value "1 0 0 1 0 1 1" gives " -m+". */
  lemma FlagStringMirrorOnly()
    ensures FlagString(Scalar("1 0 0 1 0 1 1")) == Returns(" -m+")
  {
    MirrorOnlyJoined();
    FlagStringOfWords(["1", "0", "0", "1", "0", "1", "1"]);
    OptionsMirrorOnly();
  }
}
