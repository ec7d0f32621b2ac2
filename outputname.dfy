/** getOutputName: the CAM file-name placeholders %N, %E, %P, %H and %%
    replaced in one left-to-right pass. */
module OutputName {
  import opened PyLib
  import opened CamCursor

  /** What os.path makes of the board path and the home directory: the
      board's base name without extension (%N), its extension without the
      dot (%E), its directory (%P) and the user's home (%H). */
  datatype PathParts = PathParts(name: string, ext: string, dir: string, home: string)

  /** The text a placeholder `%c` stands for, if `%c` is one. */
  function Replacement(c: char, parts: PathParts): (r: Option<string>)
    ensures r.Some? <==> c in {'N', 'E', 'P', 'H', '%'}
  {
    match c
    case 'N' => Some(parts.name)
    case 'E' => Some(parts.ext)
    case 'P' => Some(parts.dir)
    case 'H' => Some(parts.home)
    case '%' => Some("%")
    case _ => None
  }

  /** re.sub with the alternation of the five two-character placeholders:
      at each position a placeholder is replaced and skipped, any other
      character is kept; replacement text is never scanned again. A
      template without '%' is returned unchanged. */
  function Expand(t: string, parts: PathParts): (r: string)
    ensures '%' !in t ==> r == t
    decreases |t|
  {
    if t == [] then []
    else if |t| >= 2 && t[0] == '%' && Replacement(t[1], parts).Some? then
      Replacement(t[1], parts).value + Expand(t[2..], parts)
    else [t[0]] + Expand(t[1..], parts)
  }

  /** getOutputName(nameTemplate, boardPath): None unless both are truthy;
      a dict template reaches re.sub and raises. */
  function GetOutputName(template: FieldValue, board: string, parts: PathParts): (r: Outcome<Option<string>>)
    ensures r == Returns(None) <==> !Truthy(template) || board == ""
    ensures r.Raises? <==> Truthy(template) && board != "" && template.Localized?
    ensures r.Raises? ==> r.error == TypeError
  {
    if !Truthy(template) || board == "" then Returns(None)
    else
      match template
      case Scalar(t) => Returns(Some(Expand(t, parts)))
      case Localized(_) => Raises(TypeError)
  }

  /** Text with every '%' doubled: a template that stands for s itself. */
  function Escape(s: string): (r: string)
    ensures |r| >= |s|
  {
    if s == [] then []
    else if s[0] == '%' then "%%" + Escape(s[1..])
    else [s[0]] + Escape(s[1..])
  }

  /** Expanding an escaped text gives the text back: "%%" stands for a
      single '%' and nothing else is touched. */
  lemma {:induction false} ExpandEscape(s: string, parts: PathParts)
    ensures Expand(Escape(s), parts) == s
    decreases |s|
  {
    if s != [] {
      ExpandEscape(s[1..], parts);
      var e := Escape(s);
      if s[0] == '%' {
        assert e[0] == '%' && e[1] == '%' && e[2..] == Escape(s[1..]);
        ExpandEscapedChar(e, parts);
      } else {
        assert e[0] == s[0] && e[1..] == Escape(s[1..]);
        ExpandKept(e, parts);
      }
      assert s == [s[0]] + s[1..];
    }
  }

  /** The expansion of a template is the expansion of a placeholder-free
      prefix followed by the expansion of the rest. */
  lemma {:induction false} ExpandAppend(plain: string, t: string, parts: PathParts)
    requires '%' !in plain
    ensures Expand(plain + t, parts) == plain + Expand(t, parts)
    decreases |plain|
  {
    if plain != [] {
      var whole := plain + t;
      assert whole[0] == plain[0] != '%' && whole[1..] == plain[1..] + t;
      ExpandKept(whole, parts);
      assert '%' !in plain[1..] by {
        assert forall c | c in plain[1..] :: c in plain;
      }
      ExpandAppend(plain[1..], t, parts);
      ConsAppend(plain, Expand(t, parts));
    } else {
      assert plain + t == t;
    }
  }

  /** A first character other than '%' is kept as it is. */
  lemma ExpandKept(t: string, parts: PathParts)
    requires t != [] && t[0] != '%'
    ensures Expand(t, parts) == [t[0]] + Expand(t[1..], parts)
  {
  }

  /** Putting back the first character of a non-empty a before a + b. */
  lemma ConsAppend(a: string, b: string)
    requires a != []
    ensures [a[0]] + (a[1..] + b) == a + b
  {
    assert a == [a[0]] + a[1..];
  }

  /** "%%" at the front stands for one '%'. */
  lemma ExpandEscapedChar(t: string, parts: PathParts)
    requires |t| >= 2 && t[0] == '%' && t[1] == '%'
    ensures Expand(t, parts) == "%" + Expand(t[2..], parts)
  {
  }

  /** "%N.cmp" for the board acme.brd is "acme.cmp". */
  lemma ExpandBoardName()
    ensures Expand("%N.cmp", PathParts("acme", "brd", "boards", "home")) == "acme.cmp"
  {
    var parts := PathParts("acme", "brd", "boards", "home");
    assert "%N.cmp"[2..] == ".cmp";
  }

  /** "%%N" is "%N": the escaped '%' does not start a new placeholder. */
  lemma ExpandEscapedPercent(parts: PathParts)
    ensures Expand("%%N", parts) == "%N"
  {
    assert "%%N"[2..] == "N";
  }

  /** Replacement text is not scanned again: a board named "%E" gives
      "%E" for "%N", not the extension. */
  lemma ExpandNoRescan(parts: PathParts)
    requires parts.name == "%E"
    ensures Expand("%N", parts) == "%E"
  {
    assert "%N"[2..] == [];
  }
}
