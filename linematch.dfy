/** The line shapes of an EAGLE .cam job file, each recognised the way the
    script's `re.match` calls recognise them: anchored at the start of the
    line only, with greedy groups, and with '.' stopping at a newline. */
module LineMatch {
  import opened PyLib

  predicate IsLetter(c: char) {
    'a' <= c <= 'z' || 'A' <= c <= 'Z'
  }

  /** A field key. The script splices keys into its regular expressions
      unescaped; every key it uses is a plain identifier, which matches
      only itself. */
  type Key = k: string | forall i | 0 <= i < |k| :: IsLetter(k[i]) witness "Key"

  /** s without its prefix pre, or None when s does not start with pre:
      what an anchored match of a literal consumes. */
  function StripPrefix(pre: string, s: string): Option<string>
    decreases |pre|
  {
    if pre == [] then Some(s)
    else if s != [] && s[0] == pre[0] then StripPrefix(pre[1..], s[1..])
    else None
  }

  /** StripPrefix succeeds exactly on strings that start with pre, and
      gives back what follows it. */
  lemma {:induction false} StripPrefixSpec(pre: string, s: string)
    ensures StripPrefix(pre, s).Some? <==> pre <= s
    ensures StripPrefix(pre, s).Some? ==> StripPrefix(pre, s).value == s[|pre|..]
    decreases |pre|
  {
    if pre != [] && s != [] && s[0] == pre[0] {
      StripPrefixSpec(pre[1..], s[1..]);
      assert pre <= s <==> pre[1..] <= s[1..] by {
        if pre[1..] <= s[1..] {
          forall i | 0 <= i < |pre| ensures pre[i] == s[i] {
            if i > 0 {
              assert pre[1..][i - 1] == s[1..][i - 1];
            }
          }
        }
      }
      if pre <= s {
        assert s[1..][|pre| - 1..] == s[|pre|..];
      }
    }
  }

  /** `Key=value`: the prefix test of isLinePrefix, then everything after '='. */
  function KeyEqValue(key: Key, line: string): Option<string> {
    StripPrefix(key + "=", line)
  }

  /** A `Key=value` match is exactly a line that starts with `Key=`, and the
      value is the rest of the line. */
  lemma KeyEqValueSpec(key: Key, line: string)
    ensures KeyEqValue(key, line).Some? <==> key + "=" <= line
    ensures KeyEqValue(key, line).Some? ==> line == key + "=" + KeyEqValue(key, line).value
  {
    StripPrefixSpec(key + "=", line);
    if key + "=" <= line {
      assert line == line[..|key| + 1] + line[|key| + 1..];
    }
  }

  /** `Key="value"` (pattern key + '="(.*)"'): the value runs up to the last
      double quote before the first newline. */
  function KeyEqQuotedVal(key: Key, line: string): Option<string> {
    match StripPrefix(key + "=\"", line)
    case None => None
    case Some(after) =>
      var run := DotRun(after);
      match LastIndex(run, '"')
      case None => None
      case Some(q) => Some(run[..q])
  }

  /** The quoted value is what the greedy group takes: `Key="value"` starts
      the line, no double quote follows on that line, and a match is found
      whenever a double quote follows `Key="` on the line. */
  lemma KeyEqQuotedValSpec(key: Key, line: string)
    ensures var r := KeyEqQuotedVal(key, line);
      && (r.Some? ==> key + "=\"" + r.value + "\"" <= line && '\n' !in r.value)
      && (r.Some? ==> '"' !in DotRun(line[|key| + |r.value| + 3..]))
      && (key + "=\"" <= line && '"' in DotRun(line[|key| + 2..]) ==> r.Some?)
      && (!(key + "=\"" <= line) ==> r.None?)
  {
    var pre := key + "=\"";
    StripPrefixSpec(pre, line);
    if pre <= line {
      var run := DotRun(line[|pre|..]);
      DotRunSpec(line[|pre|..]);
      LastIndexSpec(run, '"');
      match LastIndex(run, '"')
      case None =>
      case Some(q) =>
        PrefixThrough(line, pre, q, '"');
        AfterDelimiter(line, |pre|, q, '"');
        assert forall c | c in run[..q] :: c in run;
    }
  }

  /** If pre starts line and the dot-run after it has c at q, then pre, the
      dot-run up to q, and c start line. */
  lemma PrefixThrough(line: string, pre: string, q: nat, c: char)
    requires pre <= line
    requires q < |DotRun(line[|pre|..])| && DotRun(line[|pre|..])[q] == c
    ensures pre + DotRun(line[|pre|..])[..q] + [c] <= line
  {
    var rest := line[|pre|..];
    var run := DotRun(rest);
    DotRunSpec(rest);
    var w := pre + run[..q] + [c];
    forall i | |pre| <= i < |w| ensures w[i] == line[i] {
      assert w[i] == run[i - |pre|] == rest[i - |pre|];
    }
  }

  /** What follows a delimiter found at q in the dot-run after skip has the
      dot-run that is left of it. */
  lemma AfterDelimiter(line: string, skip: nat, q: nat, c: char)
    requires skip <= |line|
    requires q < |DotRun(line[skip..])|
    requires c !in DotRun(line[skip..])[q + 1..]
    ensures c !in DotRun(line[skip + q + 1..])
  {
    DotRunTail(line[skip..], q + 1);
    assert line[skip..][q + 1..] == line[skip + q + 1..];
  }

  /** Where the dot-run of s is longer than k, the dot-run of s[k..] is what
      is left of it. */
  lemma {:induction false} DotRunTail(s: string, k: nat)
    requires k <= |DotRun(s)|
    ensures DotRun(s[k..]) == DotRun(s)[k..]
    decreases k
  {
    if k > 0 {
      assert s[0] != '\n';
      assert s[1..][k - 1..] == s[k..];
      DotRunTail(s[1..], k - 1);
    }
  }

  /** In r, position p splits `lang]="value"`: the literal `]="` starts at p,
      at least one character precedes it, and a closing quote follows. */
  predicate IsLangBoundary(r: string, p: int) {
    1 <= p && p + 3 <= |r| && r[p] == ']' && r[p + 1] == '=' && r[p + 2] == '"' && '"' in r[p + 3..]
  }

  /** v holds no `]="`, the literal a language group must end with. */
  predicate NoLangMark(v: string) {
    forall i | 0 <= i < |v| - 2 :: !(v[i] == ']' && v[i + 1] == '=' && v[i + 2] == '"')
  }

  /** The largest boundary at or below p: the split the greedy group `(.+)`
      settles on after backtracking. */
  function LastLangBoundary(r: string, p: int): Option<nat>
    decreases p
  {
    if p < 1 then None
    else if IsLangBoundary(r, p) then Some(p)
    else LastLangBoundary(r, p - 1)
  }

  /** The search finds the largest boundary at or below p, or reports that
      there is none. */
  lemma {:induction false} LastLangBoundarySpec(r: string, p: int)
    ensures var b := LastLangBoundary(r, p);
      && (b.Some? ==> b.value <= p && IsLangBoundary(r, b.value))
      && (b.Some? ==> forall q | b.value < q <= p :: !IsLangBoundary(r, q))
      && (b.None? ==> forall q | q <= p :: !IsLangBoundary(r, q))
    decreases p
  {
    if p >= 1 && !IsLangBoundary(r, p) {
      LastLangBoundarySpec(r, p - 1);
      var b := LastLangBoundary(r, p - 1);
      if b.Some? {
        forall q | b.value < q <= p ensures !IsLangBoundary(r, q) {
          if q < p {
            assert b.value < q <= p - 1;
          }
        }
      } else {
        forall q | q <= p ensures !IsLangBoundary(r, q) {
          if q < p {
            assert q <= p - 1;
          }
        }
      }
    }
  }

  /** `Key[lang]="value"` (pattern key + '\[(.+)\]="(.*)"'): the language
      code and the value. */
  function KeyLangEqQuotedVal(key: Key, line: string): Option<(string, string)> {
    match StripPrefix(key + "[", line)
    case None => None
    case Some(after) => LangSplit(DotRun(after))
  }

  /** The groups `(.+)\]="(.*)"` make of the rest of a line after `Key[`:
      the language up to the last boundary, the value up to the last double
      quote after it. */
  function LangSplit(run: string): Option<(string, string)> {
    match LastLangBoundary(run, |run| - 3)
    case None => None
    case Some(p) => CutAt(run, p)
  }

  /** The language before p and the value from p + 3 up to the last double
      quote after it, if there is one. */
  function CutAt(run: string, p: nat): Option<(string, string)> {
    if |run| < p + 3 then None
    else
      match LastIndex(run[p + 3..], '"')
      case None => None
      case Some(q) => Some((run[..p], run[p + 3..p + 3 + q]))
  }

  /** When LangSplit matches, it splits at a boundary p and at the last
      double quote q after it. */
  lemma LangSplitParts(run: string) returns (p: nat, q: nat)
    requires LangSplit(run).Some?
    ensures p + 3 + q < |run| && 1 <= p
    ensures run[p] == ']' && run[p + 1] == '=' && run[p + 2] == '"' && run[p + 3 + q] == '"'
    ensures '"' !in run[p + 3 + q + 1..]
    ensures LangSplit(run) == Some((run[..p], run[p + 3..p + 3 + q]))
  {
    LastLangBoundaryFound(run, |run| - 3);
    p := LastLangBoundary(run, |run| - 3).value;
    var tail := run[p + 3..];
    LastIndexFound(tail, '"');
    q := LastIndex(tail, '"').value;
    assert tail[q + 1..] == run[p + 3 + q + 1..];
    assert LangSplit(run) == CutAt(run, p);
  }

  /** A boundary the search finds is one. */
  lemma LastLangBoundaryFound(r: string, p: int)
    requires LastLangBoundary(r, p).Some?
    ensures LastLangBoundary(r, p).value <= p && IsLangBoundary(r, LastLangBoundary(r, p).value)
  {
    LastLangBoundarySpec(r, p);
  }

  /** What LangSplit cuts out of a run starts it, in the shape
      `lang]="value"`, with a non-empty language code. */
  lemma LangSplitSpec(run: string)
    ensures var r := LangSplit(run);
      r.Some? ==> r.value.0 + "]=\"" + r.value.1 + "\"" <= run && r.value.0 != []
  {
    if LangSplit(run).Some? {
      var p, q := LangSplitParts(run);
      var n := p + 3 + q + 1;
      SplitAt(run[..n], p, q);
      assert run[..n][..p] == run[..p];
      assert run[..n][p + 3..][..q] == run[p + 3..p + 3 + q];
    }
  }

  /** A run without a newline gives LangSplit parts without one. */
  lemma LangSplitNoNewline(run: string)
    requires '\n' !in run
    ensures var r := LangSplit(run);
      r.Some? ==> '\n' !in r.value.0 && '\n' !in r.value.1
  {
    if LangSplit(run).Some? {
      var p, q := LangSplitParts(run);
      NoNewlineIn(run, 0, p);
      NoNewlineIn(run, p + 3, p + 3 + q);
    }
  }

  /** A `Key[lang]="value"` match starts the line, with a non-empty language
      code and neither part running past the end of the line. */
  lemma KeyLangEqQuotedValSpec(key: Key, line: string)
    ensures var r := KeyLangEqQuotedVal(key, line);
      && (r.Some? ==> key + "[" + r.value.0 + "]=\"" + r.value.1 + "\"" <= line)
      && (r.Some? ==> r.value.0 != [] && '\n' !in r.value.0 && '\n' !in r.value.1)
      && (!(key + "[" <= line) ==> r.None?)
  {
    var pre := key + "[";
    var r := KeyLangEqQuotedVal(key, line);
    StripPrefixSpec(pre, line);
    if pre <= line {
      var after := line[|pre|..];
      var run := DotRun(after);
      assert r == LangSplit(run) by {
        assert StripPrefix(pre, line) == Some(after);
      }
      if r.Some? {
        var lang, v := r.value.0, r.value.1;
        var x := lang + "]=\"" + v + "\"";
        DotRunSpec(after);
        LangSplitSpec(run);
        LangSplitNoNewline(run);
        assert x <= after;
        PrefixConcat(line, pre, x);
        assert key + "[" + lang + "]=\"" + v + "\"" == pre + x;
      }
    }
  }

  /** The value of a `Key[lang]="value"` match ends at the last double quote
      of the line: no double quote follows it. */
  lemma LangValueEndsAtLastQuote(key: Key, line: string)
    requires KeyLangEqQuotedVal(key, line).Some?
    ensures var r := KeyLangEqQuotedVal(key, line).value;
      |key| + |r.0| + |r.1| + 5 <= |line| && '"' !in DotRun(line[|key| + |r.0| + |r.1| + 5..])
  {
    var pre := key + "[";
    StripPrefixSpec(pre, line);
    var run := DotRun(line[|pre|..]);
    assert KeyLangEqQuotedVal(key, line) == LangSplit(run);
    DotRunSpec(line[|pre|..]);
    var p, q := LangSplitParts(run);
    AfterDelimiter(line, |pre|, p + 3 + q, '"');
  }

  /** A `Key[` line matches whenever what follows `Key[` on the line has a
      boundary `lang]="` with a double quote after it. */
  lemma LangBoundaryMatches(key: Key, line: string, p: nat)
    requires key + "[" <= line && IsLangBoundary(DotRun(line[|key| + 1..]), p)
    ensures KeyLangEqQuotedVal(key, line).Some?
  {
    var pre := key + "[";
    var run := DotRun(line[|pre|..]);
    StripPrefixSpec(pre, line);
    assert KeyLangEqQuotedVal(key, line) == LangSplit(run);
    LastLangBoundarySpec(run, |run| - 3);
    var b := LastLangBoundary(run, |run| - 3).value;
    LastIndexSome(run[b + 3..], '"');
  }

  /** A string of length p + 3 + q + 1 with `]="` at p and '"' at its end is
      its four parts put together. */
  lemma SplitAt(w: string, p: nat, q: nat)
    requires |w| == p + 3 + q + 1
    requires w[p] == ']' && w[p + 1] == '=' && w[p + 2] == '"' && w[p + 3 + q] == '"'
    ensures w == w[..p] + "]=\"" + w[p + 3..][..q] + "\""
  {
    var u := w[..p] + "]=\"" + w[p + 3..][..q] + "\"";
    forall i | p <= i < p + 3 ensures u[i] == w[i] {
      assert u[i] == "]=\""[i - p];
    }
  }

  /** pre starts line and x starts what follows it, so pre + x starts line. */
  lemma PrefixConcat(line: string, pre: string, x: string)
    requires pre <= line && x <= line[|pre|..]
    ensures pre + x <= line
  {
    forall i | |pre| <= i < |pre| + |x| ensures (pre + x)[i] == line[i] {
      assert (pre + x)[i] == x[i - |pre|] == line[|pre|..][i - |pre|];
    }
  }

  /** A slice of a newline-free string is newline-free. */
  lemma NoNewlineIn(s: string, i: nat, j: nat)
    requires '\n' !in s && i <= j <= |s|
    ensures '\n' !in s[i..j]
  {
    forall k | 0 <= k < j - i ensures s[i..j][k] != '\n' {
      assert s[i..j][k] == s[i + k];
    }
  }

  /** `[tag]` (pattern '\[(.+)\]'): the text up to the last ']' before the
      first newline, which must not be empty. */
  function ValInSqBrackets(line: string): Option<string> {
    match StripPrefix("[", line)
    case None => None
    case Some(after) =>
      var run := DotRun(after);
      match LastIndex(run, ']')
      case None => None
      case Some(q) => if q >= 1 then Some(run[..q]) else None
  }

  /** A `[tag]` match starts the line, with a non-empty tag that takes the
      last ']' of the line; a line that starts with '[' matches exactly when
      a ']' follows on that line after at least one character. */
  lemma ValInSqBracketsSpec(line: string)
    ensures var r := ValInSqBrackets(line);
      && (r.Some? ==> "[" + r.value + "]" <= line && r.value != [] && '\n' !in r.value)
      && (r.Some? ==> ']' !in DotRun(line[|r.value| + 2..]))
      && (|line| >= 2 && line[0] == '[' && line[1] != '\n' && ']' in DotRun(line[2..]) ==> r.Some?)
      && (!("[" <= line) ==> r.None?)
  {
    StripPrefixSpec("[", line);
    if line != [] && line[0] == '[' {
      assert line[..1] == "[";
    }
    if "[" <= line {
      var run := DotRun(line[1..]);
      DotRunSpec(line[1..]);
      LastIndexSpec(run, ']');
      if |line| >= 2 && line[1] != '\n' {
        assert line[1..][1..] == line[2..];
        assert run == [line[1]] + DotRun(line[2..]);
      }
      match LastIndex(run, ']')
      case None =>
      case Some(q) =>
        if q >= 1 {
          AfterDelimiter(line, 1, q, ']');
          PrefixThrough(line, "[", q, ']');
          assert forall c | c in run[..q] :: c in run;
        }
    }
  }

  // ---------------------------------------------------------------------
  // What each matcher makes of a line written in its own shape.

  /** `Key="value"` gives the value back, whatever quotes it contains. */
  lemma QuotedValOfLine(key: Key, v: string)
    requires '\n' !in v
    ensures KeyEqQuotedVal(key, key + "=\"" + v + "\"") == Some(v)
  {
    var line := key + "=\"" + v + "\"";
    StripPrefixSpec(key + "=\"", line);
    assert line[|key| + 2..] == v + "\"";
    assert '\n' !in v + "\"";
    DotRunNoNewline(v + "\"");
    assert (v + "\"")[|v|] == '"';
  }

  /** `[tag]` gives the tag back, whatever brackets it contains. */
  lemma BracketValOfLine(tag: string)
    requires tag != [] && '\n' !in tag
    ensures ValInSqBrackets("[" + tag + "]") == Some(tag)
  {
    var line := "[" + tag + "]";
    StripPrefixSpec("[", line);
    assert line[1..] == tag + "]";
    assert '\n' !in tag + "]";
    DotRunNoNewline(tag + "]");
    assert (tag + "]")[|tag|] == ']';
  }

  /** `Key[lang]="value"` gives the pair back whenever lang is non-empty,
      neither part holds a newline and v holds no `]="`: the greedy groups
      then split right after lang and the value runs to the final quote,
      so `Key[e"n]="a"b"` reads back as `e"n` and `a"b`. */
  lemma LangValOfLine(key: Key, lang: string, v: string)
    requires lang != [] && '\n' !in lang
    requires '\n' !in v && NoLangMark(v)
    ensures KeyLangEqQuotedVal(key, key + "[" + lang + "]=\"" + v + "\"") == Some((lang, v))
  {
    var line := key + "[" + lang + "]=\"" + v + "\"";
    var run := lang + "]=\"" + v + "\"";
    assert StripPrefix(key + "[", line) == Some(run) by {
      LineAfterKey(key, lang, v);
      StripPrefixSpec(key + "[", line);
    }
    assert DotRun(run) == run && LastLangBoundary(run, |run| - 3) == Some(|lang|) by {
      LangRunSearch(lang, v);
      DotRunNoNewline(run);
    }
    assert run[..|lang|] == lang && run[|lang| + 3..|lang| + 3 + |v|] == v &&
      LastIndex(run[|lang| + 3..], '"') == Some(|v|) by {
      LangRunParts(lang, v);
    }
  }

  /** On `lang]="value"` the search for the language/value split stops
      right after lang. */
  lemma LangRunSearch(lang: string, v: string)
    requires lang != [] && '\n' !in lang
    requires '\n' !in v && NoLangMark(v)
    ensures var run := lang + "]=\"" + v + "\"";
      '\n' !in run && LastLangBoundary(run, |run| - 3) == Some(|lang|)
  {
    LangRunShape(lang, v);
    var run := lang + "]=\"" + v + "\"";
    BoundaryIsLast(run, |lang|, |run| - 3);
  }

  lemma LineAfterKey(key: Key, lang: string, v: string)
    ensures var line := key + "[" + lang + "]=\"" + v + "\"";
      key + "[" <= line && line[|key| + 1..] == lang + "]=\"" + v + "\""
  {
  }

  /** The pieces the matcher cuts out of `lang]="value"`. */
  lemma LangRunParts(lang: string, v: string)
    ensures var run := lang + "]=\"" + v + "\"";
      run[..|lang|] == lang && run[|lang| + 3..|lang| + 3 + |v|] == v &&
      LastIndex(run[|lang| + 3..], '"') == Some(|v|)
  {
    var run := lang + "]=\"" + v + "\"";
    assert run[|lang| + 3..] == v + "\"";
    assert (v + "\"")[|v|] == '"';
    assert (v + "\"")[|v| + 1..] == [];
  }

  /** A boundary with none above it is the one the search finds. */
  lemma {:induction false} BoundaryIsLast(run: string, p: nat, top: int)
    requires IsLangBoundary(run, p) && p <= top
    requires forall q | p < q <= top :: !IsLangBoundary(run, q)
    ensures LastLangBoundary(run, top) == Some(p)
    decreases top
  {
    if top > p {
      BoundaryIsLast(run, p, top - 1);
    }
  }

  /** The remainder `lang]="value"` of such a line has no newline, and its
      only boundary between language and value is right after lang. */
  lemma LangRunShape(lang: string, v: string)
    requires lang != [] && '\n' !in lang
    requires '\n' !in v && NoLangMark(v)
    ensures var run := lang + "]=\"" + v + "\"";
      '\n' !in run && IsLangBoundary(run, |lang|) &&
      forall q | |lang| < q <= |run| - 3 :: !IsLangBoundary(run, q)
  {
    var run := lang + "]=\"" + v + "\"";
    var p := |lang|;
    forall i | 0 <= i < |run| ensures run[i] != '\n' && (p + 3 <= i < |run| - 1 ==> run[i] == v[i - p - 3]) {
      if i < p {
        assert run[i] == lang[i];
      } else if p + 3 <= i < |run| - 1 {
        assert run[i] == v[i - p - 3];
      }
    }
    assert run[p] == ']' && run[p + 1] == '=' && run[p + 2] == '"';
    assert run[p + 3..][|v|] == '"';
    forall q | p < q <= |run| - 3 ensures !IsLangBoundary(run, q) {
      if q + 3 == |run| {
        assert run[q + 3..] == [];
      } else if q >= p + 3 {
        assert run[q] == v[q - p - 3] && run[q + 1] == v[q - p - 2] && run[q + 2] == v[q - p - 1];
      }
    }
  }

  // ---------------------------------------------------------------------
  // Which key a line belongs to.

  /** The line has none of the three shapes of key's field. */
  predicate NoFieldShape(key: Key, line: string) {
    && KeyLangEqQuotedVal(key, line).None?
    && KeyEqQuotedVal(key, line).None?
    && KeyEqValue(key, line).None?
  }

  /** Shapes of one key: `Key="value"` is also `Key=value`, and a
      `Key=value` line is never `Key[lang]="value"`. */
  lemma ShapesOfKey(key: Key, line: string)
    ensures KeyEqQuotedVal(key, line).Some? ==> KeyEqValue(key, line).Some?
    ensures KeyEqValue(key, line).Some? ==> KeyLangEqQuotedVal(key, line).None?
  {
    StripPrefixSpec(key + "=\"", line);
    StripPrefixSpec(key + "=", line);
    StripPrefixSpec(key + "[", line);
    if key + "=\"" <= line {
      assert line[..|key| + 1] == (key + "=\"")[..|key| + 1] == key + "=";
    }
    if key + "=" <= line {
      PrefixChar(key + "=", line, |key|);
    }
  }

  /** A prefix of line agrees with line at each of its positions. */
  lemma PrefixChar(pre: string, line: string, i: nat)
    requires pre <= line && i < |pre|
    ensures line[i] == pre[i]
  {
    assert line[..|pre|][i] == line[i];
  }

  /** A key followed by something that is not a letter starts line. */
  predicate KeyThenMark(k: Key, line: string) {
    |k| < |line| && line[..|k|] == k && !IsLetter(line[|k|])
  }

  /** A key followed by a mark that is not a letter starts line. */
  lemma MarkedPrefix(k: Key, mark: string, line: string)
    requires mark != [] && !IsLetter(mark[0]) && k + mark <= line
    ensures KeyThenMark(k, line)
  {
    assert line[..|k|] == (k + mark)[..|k|];
    assert line[|k|] == (k + mark)[|k|];
  }

  /** Only one key can start a line and be followed by a non-letter. */
  lemma KeyMarkUnique(k1: Key, k2: Key, line: string)
    requires KeyThenMark(k1, line) && KeyThenMark(k2, line)
    ensures k1 == k2
  {
  }

  /** A line of one key has no shape of another key. */
  lemma OtherKeyLine(k1: Key, k2: Key, rest: string)
    requires k1 != k2
    ensures NoFieldShape(k2, k1 + "=" + rest)
  {
    var line := k1 + "=" + rest;
    assert k1 + "=" <= line;
    MarkedPrefix(k1, "=", line);
    StripPrefixSpec(k2 + "[", line);
    StripPrefixSpec(k2 + "=\"", line);
    StripPrefixSpec(k2 + "=", line);
    if k2 + "[" <= line {
      MarkedPrefix(k2, "[", line);
      KeyMarkUnique(k1, k2, line);
    }
    if k2 + "=\"" <= line {
      MarkedPrefix(k2, "=\"", line);
      KeyMarkUnique(k1, k2, line);
    }
    if k2 + "=" <= line {
      MarkedPrefix(k2, "=", line);
      KeyMarkUnique(k1, k2, line);
    }
  }

  /** An empty line has no shape of any key. */
  lemma EmptyLineNoShape(key: Key)
    ensures NoFieldShape(key, "")
  {
  }
}
