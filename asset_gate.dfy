/** The asset gate of manual publishing: an owner may be published only when
    its assets in its primary language include both a portrait and a
    landscape variant of the required asset type. */
module AssetGate {
  import opened Models

  /** The row filter of the gate's query: this owner, this language, this type. */
  predicate Matches(a: Asset, owner: Id, language: Language, assetType: AssetType)
  {
    a.owner == owner && a.language == language && a.assetType == assetType
  }

  /** The set of variants among the matching assets: a variant is in it
      exactly when the asset record of that owner, language, variant and type
      is stored. */
  function Variants(assets: seq<Asset>, owner: Id, language: Language, assetType: AssetType): (vs: set<Variant>)
    ensures forall v :: v in vs <==> Asset(owner, language, v, assetType) in assets
  {
    var vs := set a | a in assets && Matches(a, owner, language, assetType) :: a.variant;
    assert forall v :: Asset(owner, language, v, assetType) in assets ==> v in vs by {
      forall v | Asset(owner, language, v, assetType) in assets
        ensures v in vs
      {
        var a := Asset(owner, language, v, assetType);
        assert a in assets && Matches(a, owner, language, assetType);
      }
    }
    vs
  }

  /** The gate: both required variants are among the matching assets, that is,
      the portrait and the landscape record of this owner, language and type
      are both stored. */
  function HasRequiredVariants(assets: seq<Asset>, owner: Id, language: Language, assetType: AssetType): (ok: bool)
    ensures ok <==>
      Asset(owner, language, Portrait, assetType) in assets &&
      Asset(owner, language, Landscape, assetType) in assets
  {
    var vs := Variants(assets, owner, language, assetType);
    Portrait in vs && Landscape in vs
  }

  /** `program_has_required_posters`: posters in the program's primary language. */
  function ProgramHasRequiredPosters(assets: seq<Asset>, id: Id, p: Program): (ok: bool)
    ensures ok <==> Asset(id, p.language, Portrait, Poster) in assets && Asset(id, p.language, Landscape, Poster) in assets
  {
    HasRequiredVariants(assets, id, p.language, Poster)
  }

  /** `lesson_has_required_thumbnails`: thumbnails in the lesson's primary language. */
  function LessonHasRequiredThumbnails(assets: seq<Asset>, id: Id, l: Lesson): (ok: bool)
    ensures ok <==> Asset(id, l.language, Portrait, Thumbnail) in assets && Asset(id, l.language, Landscape, Thumbnail) in assets
  {
    HasRequiredVariants(assets, id, l.language, Thumbnail)
  }

  /** With no assets at all the gate is closed. */
  lemma NoAssetsFailsGate(owner: Id, language: Language, assetType: AssetType)
    ensures !HasRequiredVariants([], owner, language, assetType)
  {
  }

  /** The gate looks only at which assets are present, not at their order or
      multiplicity. */
  lemma GateDependsOnlyOnPresence(xs: seq<Asset>, ys: seq<Asset>, owner: Id, language: Language, assetType: AssetType)
    requires forall a :: a in xs <==> a in ys
    ensures HasRequiredVariants(xs, owner, language, assetType) == HasRequiredVariants(ys, owner, language, assetType)
  {
    assert Variants(xs, owner, language, assetType) == Variants(ys, owner, language, assetType);
  }

  /** An asset of another owner, another language or another type, and a
      square or banner variant, never changes the gate's answer. */
  lemma IrrelevantAssetIgnored(assets: seq<Asset>, extra: Asset, owner: Id, language: Language, assetType: AssetType)
    requires !Matches(extra, owner, language, assetType) || extra.variant == Square || extra.variant == Banner
    ensures HasRequiredVariants(assets + [extra], owner, language, assetType) ==
            HasRequiredVariants(assets, owner, language, assetType)
  {
    var vs := Variants(assets, owner, language, assetType);
    var ws := Variants(assets + [extra], owner, language, assetType);
    assert ws == vs || ws == vs + {extra.variant};
  }

  /** Adding assets never closes an open gate. */
  lemma GateMonotone(assets: seq<Asset>, more: seq<Asset>, owner: Id, language: Language, assetType: AssetType)
    requires HasRequiredVariants(assets, owner, language, assetType)
    ensures HasRequiredVariants(assets + more, owner, language, assetType)
  {
    assert Variants(assets, owner, language, assetType) <= Variants(assets + more, owner, language, assetType);
  }

  /** A matching portrait and a matching landscape asset open the gate,
      whatever else is present. */
  lemma PortraitAndLandscapeOpenGate(assets: seq<Asset>, owner: Id, language: Language, assetType: AssetType)
    requires Asset(owner, language, Portrait, assetType) in assets
    requires Asset(owner, language, Landscape, assetType) in assets
    ensures HasRequiredVariants(assets, owner, language, assetType)
  {
    var i :| 0 <= i < |assets| && assets[i] == Asset(owner, language, Portrait, assetType);
    var j :| 0 <= j < |assets| && assets[j] == Asset(owner, language, Landscape, assetType);
    assert Matches(assets[i], owner, language, assetType) && Matches(assets[j], owner, language, assetType);
  }
}
