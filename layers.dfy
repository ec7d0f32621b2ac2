/** getValidLayers: the layers of a CAM section that the board has,
    checked against the board's layer map (layer number to layer name). */
module Layers {
  import opened PyLib
  import opened CamCursor
  import opened Diagnostics

  /** A layer the board lists, by number (a key) or by name (a value). */
  predicate IsBoardLayer(layer: string, board: map<string, string>) {
    layer in board || layer in board.Values
  }

  /** The layers of toks the board lists, in order. */
  function Kept(toks: seq<string>, board: map<string, string>): (r: seq<string>)
    ensures |r| <= |toks|
    decreases |toks|
  {
    if toks == [] then []
    else
      var last := toks[|toks| - 1];
      Kept(toks[..|toks| - 1], board) + (if IsBoardLayer(last, board) then [last] else [])
  }

  /** The layers of toks the board does not list, in order: one warning
      each. */
  function Dropped(toks: seq<string>, board: map<string, string>): (r: seq<string>)
    ensures |r| <= |toks|
    decreases |toks|
  {
    if toks == [] then []
    else
      var last := toks[|toks| - 1];
      Dropped(toks[..|toks| - 1], board) + (if IsBoardLayer(last, board) then [] else [last])
  }

  /** getValidLayers' result: a space, then the kept layers joined by
      spaces. A value without split() raises AttributeError. */
  function ValidLayers(layers: FieldValue, board: map<string, string>): (r: Outcome<string>)
    ensures r.Raises? <==> !layers.Scalar?
    ensures r.Raises? ==> r.error == AttributeError
    ensures r.Returns? ==> |r.value| >= 1 && r.value[0] == ' '
  {
    if !layers.Scalar? then Raises(AttributeError)
    else Returns(" " + JoinSpace(Kept(Split(layers.text), board)))
  }

  /** The number of warnings getValidLayers gives: at most one per given
      layer. */
  function LayerWarnings(layers: FieldValue, board: map<string, string>): (r: nat)
    ensures layers.Scalar? ==> r <= |Split(layers.text)|
  {
    if layers.Scalar? then |Dropped(Split(layers.text), board)| else 0
  }

  /** The loop of getValidLayers: keep each listed layer, warn once for
      each other one. */
  method GetValidLayers(layers: FieldValue, board: map<string, string>, ctx: RunContext)
    returns (r: Outcome<string>)
    modifies ctx
    ensures r == ValidLayers(layers, board)
    ensures ctx.warnings == old(ctx.warnings) + LayerWarnings(layers, board)
    ensures ctx.errors == old(ctx.errors)
  {
    if !layers.Scalar? {
      return Raises(AttributeError);
    }
    var layerList := Split(layers.text);
    var validList := [];
    var i := 0;
    while i < |layerList|
      invariant i <= |layerList|
      invariant validList == Kept(layerList[..i], board)
      invariant ctx.warnings == old(ctx.warnings) + |Dropped(layerList[..i], board)|
      invariant ctx.errors == old(ctx.errors)
    {
      var layer := layerList[i];
      assert layerList[..i + 1][..i] == layerList[..i];
      if layer in board || layer in board.Values {
        validList := validList + [layer];
      } else {
        ctx.Warning();
      }
      i := i + 1;
    }
    assert layerList[..i] == layerList;
    return Returns(" " + JoinSpace(validList));
  }

  /** A layer is kept exactly when it is given and the board lists it. */
  lemma {:induction false} KeptMembership(toks: seq<string>, board: map<string, string>, t: string)
    ensures t in Kept(toks, board) <==> t in toks && IsBoardLayer(t, board)
    decreases |toks|
  {
    if toks != [] {
      var n := |toks| - 1;
      KeptMembership(toks[..n], board, t);
      assert toks == toks[..n] + [toks[n]];
    }
  }

  /** A layer gets a warning exactly when it is given and the board does
      not list it. */
  lemma {:induction false} DroppedMembership(toks: seq<string>, board: map<string, string>, t: string)
    ensures t in Dropped(toks, board) <==> t in toks && !IsBoardLayer(t, board)
    decreases |toks|
  {
    if toks != [] {
      var n := |toks| - 1;
      DroppedMembership(toks[..n], board, t);
      assert toks == toks[..n] + [toks[n]];
    }
  }

  /** Every given layer is either kept or warned about, never both, and
      none is lost or invented. */
  lemma {:induction false} KeptDroppedPartition(toks: seq<string>, board: map<string, string>)
    ensures multiset(Kept(toks, board)) + multiset(Dropped(toks, board)) == multiset(toks)
    decreases |toks|
  {
    if toks != [] {
      var n := |toks| - 1;
      var front, last := toks[..n], toks[n];
      var k, d := Kept(front, board), Dropped(front, board);
      KeptDroppedPartition(front, board);
      assert toks == front + [last];
      if IsBoardLayer(last, board) {
        assert multiset(k + [last]) == multiset(k) + multiset{last};
      } else {
        assert multiset(d + [last]) == multiset(d) + multiset{last};
      }
    }
  }

  /** One warning per given layer the board does not list: the kept and
      the dropped layers together are as many as the given ones. */
  lemma KeptDroppedCount(toks: seq<string>, board: map<string, string>)
    ensures |Kept(toks, board)| + |Dropped(toks, board)| == |toks|
  {
    KeptDroppedPartition(toks, board);
    assert |multiset(Kept(toks, board)) + multiset(Dropped(toks, board))| == |multiset(toks)|;
  }

  /** Filtering a concatenation filters each part. */
  lemma {:induction false} KeptAppend(a: seq<string>, b: seq<string>, board: map<string, string>)
    ensures Kept(a + b, board) == Kept(a, board) + Kept(b, board)
    decreases |b|
  {
    if b == [] {
      assert a + b == a;
    } else {
      var n := |b| - 1;
      var ab := a + b;
      var last := if IsBoardLayer(b[n], board) then [b[n]] else [];
      KeptAppend(a, b[..n], board);
      assert ab[..|ab| - 1] == a + b[..n] && ab[|ab| - 1] == b[n];
      assert Kept(ab, board) == Kept(a + b[..n], board) + last;
      assert Kept(b, board) == Kept(b[..n], board) + last;
      assert Kept(a, board) + Kept(b[..n], board) + last == Kept(a, board) + (Kept(b[..n], board) + last);
    }
  }

  /** Splitting the result again gives exactly the kept layers. */
  lemma ValidLayersSplit(layers: string, board: map<string, string>)
    ensures ValidLayers(Scalar(layers), board).Returns?
    ensures Split(ValidLayers(Scalar(layers), board).value) == Kept(Split(layers), board)
  {
    var toks := Split(layers);
    var kept := Kept(toks, board);
    forall k | 0 <= k < |kept| ensures IsWord(kept[k]) {
      KeptMembership(toks, board, kept[k]);
    }
    SplitJoinSpace(kept);
    var r := " " + JoinSpace(kept);
    assert r[1..] == JoinSpace(kept);
  }

  /** With layer 1 named Top and layer 16 named Bottom, "1", "Bottom" and
      "99" keep the first two and warn about "99". */
  lemma KeptExample()
    ensures var board := map["1" := "Top", "16" := "Bottom"];
      Kept(["1", "Bottom", "99"], board) == ["1", "Bottom"]
      && Dropped(["1", "Bottom", "99"], board) == ["99"]
  {
    assert " " + "1 Bottom" == " 1 Bottom";
    var board := map["1" := "Top", "16" := "Bottom"];
    var toks := ["1", "Bottom", "99"];
    assert "16" in board && board["16"] == "Bottom";
    assert "99" !in board.Values;
    assert toks[..2] == ["1", "Bottom"] && toks[..2][..1] == ["1"] && toks[..2][..1][..0] == [];
  }

  /** The layer lists of ValidLayersExample, joined. */
  lemma ExampleLayersJoined()
    ensures JoinSpace(["1", "Bottom", "99"]) == "1 Bottom 99"
    ensures " " + JoinSpace(["1", "Bottom"]) == " 1 Bottom"
  {
    assert " " + "1 Bottom" == " 1 Bottom";
    var toks := ["1", "Bottom", "99"];
    assert JoinSpace(toks[2..]) == "99";
    assert JoinSpace(toks[1..]) == "Bottom 99";
    assert JoinSpace(["1", "Bottom"][1..]) == "Bottom";
  }

  /** With layer 1 named Top and layer 16 named Bottom, the layers value
      "1 Bottom 99" gives " 1 Bottom" and one warning. */
  lemma ValidLayersExample()
    ensures var board := map["1" := "Top", "16" := "Bottom"];
      ValidLayers(Scalar("1 Bottom 99"), board) == Returns(" 1 Bottom")
      && LayerWarnings(Scalar("1 Bottom 99"), board) == 1
  {
    ExampleLayersJoined();
    SplitJoinSpace(["1", "Bottom", "99"]);
    KeptExample();
  }
}
