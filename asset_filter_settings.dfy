/**
 The naming rules of the asset filter: each rule pairs a category with a
 regular expression for the base name and one for the extension, and the
 settings hold an ordered list of rules, four by default.
 */
module Settings {
  import opened ExtensionPatterns

  /** One naming rule; the struct constructor stores its three arguments unchanged. */
  datatype AssetPattern = AssetPattern(assetType: string, namePattern: string, extensionPattern: string)

  /** The settings asset: the ordered rule list the checker walks. */
  datatype AssetFilterSettings = AssetFilterSettings(assetPatterns: seq<AssetPattern>)

  /** The rule list a freshly created settings asset holds. */
  const DefaultAssetPatterns: seq<AssetPattern> := [
    AssetPattern("Script", "^[A-Z]+[A-Za-z]+$", ".cs$|.js$"),
    AssetPattern("Model", "^[A-Z]+[A-Za-z0-9]+$", ".fbx$|.obj$|.max$|.3ds$|.blend$|.dae$|.dxf$"),
    AssetPattern("Material", "^[A-Z]+(_?[A-Za-z0-9]+)+$", ".mat$"),
    AssetPattern("Texture", "^[A-Z]+(_?[A-Za-z0-9]+)+$", ".jpg$|.png$|.tga$|.bmp$|.psd$|.gif$|.iff$|.tiff$|.pict$")
  ]

  const DefaultSettings: AssetFilterSettings := AssetFilterSettings(DefaultAssetPatterns)

  /** The file extensions each default rule lists, in rule order. */
  const DefaultExtensions: seq<seq<string>> := [
    [".cs", ".js"],
    [".fbx", ".obj", ".max", ".3ds", ".blend", ".dae", ".dxf"],
    [".mat"],
    [".jpg", ".png", ".tga", ".bmp", ".psd", ".gif", ".iff", ".tiff", ".pict"]
  ]

  lemma AssetPatternStoresArguments(assetType: string, namePattern: string, extensionPattern: string)
    ensures var p := AssetPattern(assetType, namePattern, extensionPattern);
      p.assetType == assetType && p.namePattern == namePattern && p.extensionPattern == extensionPattern
  {
  }

  /** The default rules: four of them, in the order Script, Model, Material, Texture. */
  lemma DefaultAssetPatternsShape()
    ensures |DefaultAssetPatterns| == 4
    ensures DefaultAssetPatterns[0].assetType == "Script"
    ensures DefaultAssetPatterns[1].assetType == "Model"
    ensures DefaultAssetPatterns[2].assetType == "Material"
    ensures DefaultAssetPatterns[3].assetType == "Texture"
    ensures DefaultAssetPatterns[0].namePattern == "^[A-Z]+[A-Za-z]+$"
    ensures DefaultAssetPatterns[1].namePattern == "^[A-Z]+[A-Za-z0-9]+$"
    ensures DefaultAssetPatterns[2].namePattern == DefaultAssetPatterns[3].namePattern == "^[A-Z]+(_?[A-Za-z0-9]+)+$"
    ensures DefaultSettings.assetPatterns == DefaultAssetPatterns
  {
  }

  lemma ScriptExtensionPattern()
    ensures DefaultAssetPatterns[0].extensionPattern == AnchoredAlternation(DefaultExtensions[0])
  {
    assert DefaultExtensions[0] == [".cs", ".js"];
    assert DefaultAssetPatterns[0].extensionPattern == ".cs$|.js$";
    ScriptAlternation();
  }

  lemma ModelExtensionPattern()
    ensures DefaultAssetPatterns[1].extensionPattern == AnchoredAlternation(DefaultExtensions[1])
  {
    assert DefaultExtensions[1] == [".fbx", ".obj", ".max", ".3ds", ".blend", ".dae", ".dxf"];
    assert DefaultAssetPatterns[1].extensionPattern == ".fbx$|.obj$|.max$|.3ds$|.blend$|.dae$|.dxf$";
    ModelAlternation();
  }

  lemma MaterialExtensionPattern()
    ensures DefaultAssetPatterns[2].extensionPattern == AnchoredAlternation(DefaultExtensions[2])
  {
    assert DefaultExtensions[2] == [".mat"];
    assert DefaultAssetPatterns[2].extensionPattern == ".mat$";
    MaterialAlternation();
  }

  lemma TextureExtensionPattern()
    ensures DefaultAssetPatterns[3].extensionPattern == AnchoredAlternation(DefaultExtensions[3])
  {
    assert DefaultExtensions[3] == [".jpg", ".png", ".tga", ".bmp", ".psd", ".gif", ".iff", ".tiff", ".pict"];
    assert DefaultAssetPatterns[3].extensionPattern == ".jpg$|.png$|.tga$|.bmp$|.psd$|.gif$|.iff$|.tiff$|.pict$";
    TextureAlternation();
  }

  /** Every default extension pattern is the anchored alternation of that rule's extensions. */
  lemma DefaultExtensionPatterns()
    ensures |DefaultExtensions| == |DefaultAssetPatterns| == 4
    ensures forall k :: 0 <= k < 4 ==>
      DefaultAssetPatterns[k].extensionPattern == AnchoredAlternation(DefaultExtensions[k])
  {
    forall k | 0 <= k < 4
      ensures DefaultAssetPatterns[k].extensionPattern == AnchoredAlternation(DefaultExtensions[k])
    {
      if k == 0 {
        ScriptExtensionPattern();
      } else if k == 1 {
        ModelExtensionPattern();
      } else if k == 2 {
        MaterialExtensionPattern();
      } else {
        TextureExtensionPattern();
      }
    }
  }

  /** The extensions of the default rules each start with '.' and hold no '|'. */
  lemma DefaultExtensionsWellFormed(k: nat)
    requires k < |DefaultExtensions|
    ensures DefaultExtensions[k] != []
    ensures forall j :: 0 <= j < |DefaultExtensions[k]| ==>
      NoBar(DefaultExtensions[k][j]) && |DefaultExtensions[k][j]| >= 2 && DefaultExtensions[k][j][0] == '.'
  {
    var extensions := DefaultExtensions[k];
    forall j | 0 <= j < |extensions|
      ensures NoBar(extensions[j]) && |extensions[j]| >= 2 && extensions[j][0] == '.'
    {
      var e := extensions[j];
      assert e in DefaultExtensions[0] + DefaultExtensions[1] + DefaultExtensions[2] + DefaultExtensions[3];
    }
  }

  /**
   Every alternative of every default extension pattern is a '.', an extension
   and a closing '$' anchor.
   */
  lemma DefaultAlternativesAnchored()
    ensures forall k, alternative ::
      0 <= k < |DefaultAssetPatterns| && alternative in SplitAlternatives(DefaultAssetPatterns[k].extensionPattern)
      ==> |alternative| >= 3 && alternative[0] == '.' && alternative[|alternative| - 1] == '$'
  {
    DefaultExtensionPatterns();
    forall k | 0 <= k < |DefaultAssetPatterns|
      ensures forall alternative :: alternative in SplitAlternatives(DefaultAssetPatterns[k].extensionPattern) ==>
        |alternative| >= 3 && alternative[0] == '.' && alternative[|alternative| - 1] == '$'
    {
      DefaultExtensionsWellFormed(k);
      AlternativesAreAnchored(DefaultExtensions[k]);
    }
  }
}
