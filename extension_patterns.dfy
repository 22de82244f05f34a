/**
 Extension patterns written as regular-expression alternations of
 end-anchored extensions, such as `.cs$|.js$`: how such a pattern is built
 from a list of extensions, and how it splits back into its alternatives.
 */
module ExtensionPatterns {
  import opened Options
  import opened BaseLibrary

  /** The extensions, each followed by the end anchor `$`, joined by the alternation bar `|`. */
  function AnchoredAlternation(extensions: seq<string>): string
  {
    if extensions == [] then ""
    else if |extensions| == 1 then extensions[0] + "$"
    else extensions[0] + "$|" + AnchoredAlternation(extensions[1..])
  }

  /** An anchored alternation of two non-empty lists is the alternation of the two halves. */
  lemma {:induction false} AnchoredAlternationAppend(front: seq<string>, back: seq<string>)
    requires front != [] && back != []
    ensures AnchoredAlternation(front + back) == AnchoredAlternation(front) + "|" + AnchoredAlternation(back)
    decreases |front|
  {
    if |front| == 1 {
      assert (front + back)[1..] == back;
    } else {
      assert (front + back)[1..] == front[1..] + back;
      AnchoredAlternationAppend(front[1..], back);
    }
  }

  lemma ScriptAlternation()
    ensures AnchoredAlternation([".cs", ".js"]) == ".cs$|.js$"
  {
  }

  lemma MaterialAlternation()
    ensures AnchoredAlternation([".mat"]) == ".mat$"
  {
  }

  /*
   ModelFront, ModelBack and ModelJoin, and TextureFront, TextureBackFirst,
   TextureBackLast, TextureBackJoin and TextureJoin state nothing of their own:
   they only split the proofs of ModelAlternation and TextureAlternation into
   pieces small enough for the solver.
   */
  lemma ModelFront()
    ensures AnchoredAlternation([".fbx", ".obj", ".max"]) == ".fbx$|.obj$|.max$"
  {
  }

  lemma ModelBack()
    ensures AnchoredAlternation([".3ds", ".blend", ".dae", ".dxf"]) == ".3ds$|.blend$|.dae$|.dxf$"
  {
  }

  lemma ModelJoin()
    ensures ".fbx$|.obj$|.max$" + "|" + ".3ds$|.blend$|.dae$|.dxf$" == ".fbx$|.obj$|.max$|.3ds$|.blend$|.dae$|.dxf$"
  {
  }

  lemma ModelAlternation()
    ensures AnchoredAlternation([".fbx", ".obj", ".max", ".3ds", ".blend", ".dae", ".dxf"])
      == ".fbx$|.obj$|.max$|.3ds$|.blend$|.dae$|.dxf$"
  {
    var front, back := [".fbx", ".obj", ".max"], [".3ds", ".blend", ".dae", ".dxf"];
    assert [".fbx", ".obj", ".max", ".3ds", ".blend", ".dae", ".dxf"] == front + back;
    ModelFront();
    ModelBack();
    AnchoredAlternationAppend(front, back);
    ModelJoin();
  }

  lemma TextureFront()
    ensures AnchoredAlternation([".jpg", ".png", ".tga", ".bmp"]) == ".jpg$|.png$|.tga$|.bmp$"
  {
  }

  lemma TextureBackFirst()
    ensures AnchoredAlternation([".psd", ".gif"]) == ".psd$|.gif$"
  {
  }

  lemma TextureBackLast()
    ensures AnchoredAlternation([".iff", ".tiff", ".pict"]) == ".iff$|.tiff$|.pict$"
  {
  }

  lemma TextureBackJoin()
    ensures ".psd$|.gif$" + "|" + ".iff$|.tiff$|.pict$" == ".psd$|.gif$|.iff$|.tiff$|.pict$"
  {
  }

  lemma TextureJoin()
    ensures ".jpg$|.png$|.tga$|.bmp$" + "|" + ".psd$|.gif$|.iff$|.tiff$|.pict$"
      == ".jpg$|.png$|.tga$|.bmp$|.psd$|.gif$|.iff$|.tiff$|.pict$"
  {
  }

  lemma TextureAlternation()
    ensures AnchoredAlternation([".jpg", ".png", ".tga", ".bmp", ".psd", ".gif", ".iff", ".tiff", ".pict"])
      == ".jpg$|.png$|.tga$|.bmp$|.psd$|.gif$|.iff$|.tiff$|.pict$"
  {
    var front, middle, back := [".jpg", ".png", ".tga", ".bmp"], [".psd", ".gif"], [".iff", ".tiff", ".pict"];
    assert [".jpg", ".png", ".tga", ".bmp", ".psd", ".gif", ".iff", ".tiff", ".pict"] == front + (middle + back);
    TextureFront();
    TextureBackFirst();
    TextureBackLast();
    AnchoredAlternationAppend(middle, back);
    TextureBackJoin();
    AnchoredAlternationAppend(front, middle + back);
    TextureJoin();
  }

  /** The alternatives of a regular expression, split at every '|'. */
  function SplitAlternatives(pattern: string): (alternatives: seq<string>)
    ensures |alternatives| >= 1
    decreases |pattern|
  {
    match FirstIndexOf(pattern, '|')
    case None => [pattern]
    case Some(i) => [pattern[..i]] + SplitAlternatives(pattern[i + 1..])
  }

  /** Each extension `e` becomes the alternative `e$`, in order. */
  function Anchored(extensions: seq<string>): (alternatives: seq<string>)
    ensures |alternatives| == |extensions|
    ensures forall k :: 0 <= k < |extensions| ==> alternatives[k] == extensions[k] + "$"
  {
    if extensions == [] then [] else [extensions[0] + "$"] + Anchored(extensions[1..])
  }

  predicate NoBar(s: string) {
    forall i :: 0 <= i < |s| ==> s[i] != '|'
  }

  /** Splitting an anchored alternation recovers its anchored extensions. */
  lemma {:induction false} SplitAnchoredAlternation(extensions: seq<string>)
    requires extensions != []
    requires forall k :: 0 <= k < |extensions| ==> NoBar(extensions[k])
    ensures SplitAlternatives(AnchoredAlternation(extensions)) == Anchored(extensions)
    decreases |extensions|
  {
    var e := extensions[0];
    if |extensions| == 1 {
      var p := e + "$";
      assert FirstIndexOf(p, '|').None? by {
        assert forall i :: 0 <= i < |p| ==> p[i] != '|' by {
          assert forall i :: 0 <= i < |e| ==> p[i] == e[i];
        }
      }
    } else {
      var rest := AnchoredAlternation(extensions[1..]);
      var p := e + "$|" + rest;
      assert forall i :: 0 <= i < |e| ==> p[i] == e[i];
      assert p[|e|] == '$' && p[|e| + 1] == '|';
      assert FirstIndexOf(p, '|') == Some(|e| + 1);
      assert p[..|e| + 1] == e + "$";
      assert p[|e| + 2..] == rest;
      SplitAnchoredAlternation(extensions[1..]);
    }
  }

  /** Extensions that start with '.' and hold no '|' split back into '.'-led, '$'-closed alternatives. */
  lemma AlternativesAreAnchored(extensions: seq<string>)
    requires extensions != []
    requires forall k :: 0 <= k < |extensions| ==> NoBar(extensions[k]) && |extensions[k]| >= 2 && extensions[k][0] == '.'
    ensures forall alternative :: alternative in SplitAlternatives(AnchoredAlternation(extensions)) ==>
      |alternative| >= 3 && alternative[0] == '.' && alternative[|alternative| - 1] == '$'
  {
    SplitAnchoredAlternation(extensions);
    var alternatives := Anchored(extensions);
    forall alternative | alternative in alternatives
      ensures |alternative| >= 3 && alternative[0] == '.' && alternative[|alternative| - 1] == '$'
    {
      var k :| 0 <= k < |alternatives| && alternatives[k] == alternative;
      assert alternative == extensions[k] + "$";
    }
  }
}
