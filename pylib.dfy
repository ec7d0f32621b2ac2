/** The slice of Python 2.7 that Cam2Gerber relies on: None, exceptions that
    end the program, and the str builtins rstrip, split and " ".join. */
module PyLib {

  /** Python's None, or a value. */
  datatype Option<+T> = None | Some(value: T)

  /** The exceptions the script can raise; none of them is caught, so each
      one ends the run. */
  datatype PyError = TypeError | AttributeError | IndexError

  /** What a Python call does: return a value or raise. */
  datatype Outcome<+T> = Returns(value: T) | Raises(error: PyError)

  /** str.isspace() of one character of a Python 2 byte string. */
  predicate IsSpace(c: char) {
    c == ' ' || c == '\t' || c == '\n' || c == '\r' || c == '\U{000B}' || c == '\U{000C}'
  }

  /** s.rstrip(): s without its trailing whitespace. */
  function RStrip(s: string): (r: string)
    ensures r <= s
    ensures r == [] || !IsSpace(r[|r| - 1])
    ensures forall i | |r| <= i < |s| :: IsSpace(s[i])
  {
    if |s| > 0 && IsSpace(s[|s| - 1]) then RStrip(s[..|s| - 1]) else s
  }

  /** A string that rstrip leaves alone is one that does not end in whitespace. */
  lemma RStripFixed(s: string)
    requires s == [] || !IsSpace(s[|s| - 1])
    ensures RStrip(s) == s
  {
  }

  /** Length of the run of non-whitespace characters that starts s. */
  function TokenEnd(s: string): (n: nat)
    ensures n <= |s|
    ensures forall i | 0 <= i < n :: !IsSpace(s[i])
    ensures n == |s| || IsSpace(s[n])
  {
    if s == [] || IsSpace(s[0]) then 0 else 1 + TokenEnd(s[1..])
  }

  /** A word: what str.split() can produce, non-empty and free of whitespace. */
  predicate IsWord(t: string) {
    t != [] && forall i | 0 <= i < |t| :: !IsSpace(t[i])
  }

  /** s.split() with no argument: the maximal runs of non-whitespace, in order. */
  function Split(s: string): (r: seq<string>)
    ensures forall k | 0 <= k < |r| :: IsWord(r[k])
    decreases |s|
  {
    if s == [] then []
    else if IsSpace(s[0]) then Split(s[1..])
    else
      var n := TokenEnd(s);
      [s[..n]] + Split(s[n..])
  }

  /** " ".join(ts) */
  function JoinSpace(ts: seq<string>): string {
    if ts == [] then ""
    else if |ts| == 1 then ts[0]
    else ts[0] + " " + JoinSpace(ts[1..])
  }

  /** The token scan stops exactly at the end of a word that is followed by
      whitespace or by nothing. */
  lemma {:induction false} TokenEndOfWord(t: string, tail: string)
    requires IsWord(t)
    requires tail == [] || IsSpace(tail[0])
    ensures TokenEnd(t + tail) == |t|
    decreases |t|
  {
    if |t| > 1 {
      assert (t + tail)[1..] == t[1..] + tail;
      TokenEndOfWord(t[1..], tail);
    } else {
      assert (t + tail)[1..] == tail;
    }
  }

  /** Splitting words joined by single spaces gives the words back. */
  lemma {:induction false} SplitJoinSpace(ts: seq<string>)
    requires forall k | 0 <= k < |ts| :: IsWord(ts[k])
    ensures Split(JoinSpace(ts)) == ts
    decreases |ts|
  {
    if |ts| == 1 {
      TokenEndOfWord(ts[0], "");
      assert ts[0][|ts[0]|..] == [];
      assert ts[0] + "" == ts[0];
    } else if |ts| > 1 {
      var t, rest := ts[0], JoinSpace(ts[1..]);
      var s := t + " " + rest;
      TokenEndOfWord(t, " " + rest);
      assert s == t + (" " + rest);
      assert s[..|t|] == t;
      assert s[|t|..] == " " + rest;
      assert (" " + rest)[1..] == rest;
      SplitJoinSpace(ts[1..]);
    }
  }

  /** The longest prefix of s without a newline: the stretch a Python regex
      '.' can cover (without re.DOTALL). */
  function DotRun(s: string): (r: string)
    ensures |r| <= |s|
  {
    if s == [] || s[0] == '\n' then [] else [s[0]] + DotRun(s[1..])
  }

  /** The dot-run starts s, holds no newline, and stops only at a newline
      or at the end. */
  lemma {:induction false} DotRunSpec(s: string)
    ensures DotRun(s) <= s && '\n' !in DotRun(s)
    ensures |DotRun(s)| == |s| || s[|DotRun(s)|] == '\n'
  {
    if s != [] && s[0] != '\n' {
      DotRunSpec(s[1..]);
    }
  }

  /** A string without newlines is its own dot-run. */
  lemma {:induction false} DotRunNoNewline(s: string)
    requires '\n' !in s
    ensures DotRun(s) == s
    decreases |s|
  {
    if s != [] {
      assert s[0] in s;
      assert forall c | c in s[1..] :: c in s;
      DotRunNoNewline(s[1..]);
    }
  }

  /** Index of the last occurrence of c in s. */
  function LastIndex(s: string, c: char): (r: Option<nat>)
    ensures r.Some? ==> r.value < |s|
    decreases |s|
  {
    if s == [] then None
    else if s[|s| - 1] == c then Some(|s| - 1)
    else LastIndex(s[..|s| - 1], c)
  }

  /** LastIndex finds c exactly when s holds it, and then its last
      occurrence. */
  lemma {:induction false} LastIndexSpec(s: string, c: char)
    ensures LastIndex(s, c).None? <==> c !in s
    ensures LastIndex(s, c).Some? ==>
      LastIndex(s, c).value < |s| && s[LastIndex(s, c).value] == c && c !in s[LastIndex(s, c).value + 1..]
    decreases |s|
  {
    if s != [] && s[|s| - 1] != c {
      LastIndexSpec(s[..|s| - 1], c);
      assert forall d | d in s[..|s| - 1] :: d in s;
      assert s == s[..|s| - 1] + [s[|s| - 1]];
    }
  }

  /** A character s holds is found, at its last occurrence. */
  lemma LastIndexFound(s: string, c: char)
    requires c in s
    ensures LastIndex(s, c).Some? && LastIndex(s, c).value < |s|
    ensures s[LastIndex(s, c).value] == c && c !in s[LastIndex(s, c).value + 1..]
  {
    LastIndexSpec(s, c);
  }

  /** A character s holds is found. */
  lemma LastIndexSome(s: string, c: char)
    requires c in s
    ensures LastIndex(s, c).Some?
  {
    LastIndexSpec(s, c);
  }
}
