/**
 * Tile kinds and the tile-to-texture lookup (main.go, `Tile`, `textureFor`).
 * A tile is a plain integer, as in the source (`type Tile = int`); only
 * 0, 1 and 2 have names.
 */
module Tiles {
  import opened Wrappers

  type Tile = int

  const Empty: Tile := 0
  const Wall1: Tile := 1
  const Wall2: Tile := 2

  /** The tile kinds the source names. */
  predicate IsTileKind(t: Tile) {
    t == Empty || t == Wall1 || t == Wall2
  }

  /** A level every tile of which is one of the named kinds. */
  predicate IsWellFormedLevel(level: seq<seq<Tile>>) {
    forall j, i :: 0 <= j < |level| && 0 <= i < |level[j]| ==> IsTileKind(level[j][i])
  }

  /**
   * The name of the texture a tile is drawn with. `None` stands for the
   * panic the source raises on any other tile, the empty tile included.
   */
  function TextureFor(t: Tile): (r: Option<string>)
    ensures r.Some? <==> t != Empty && IsTileKind(t)
    ensures r == Some("wall") <==> t == Wall1
    ensures r == Some("wall-2") <==> t == Wall2
  {
    if t == Wall1 then Some("wall")
    else if t == Wall2 then Some("wall-2")
    else None
  }

  /** Distinct wall kinds are drawn with distinct textures. */
  lemma TextureForInjective(s: Tile, t: Tile)
    requires TextureFor(s).Some? && TextureFor(t).Some?
    ensures TextureFor(s) == TextureFor(t) <==> s == t
  {
  }

  /** On a well-formed level, a non-empty tile never reaches the panic branch. */
  lemma WellFormedLevelHasTextures(level: seq<seq<Tile>>, j: nat, i: nat)
    requires IsWellFormedLevel(level)
    requires j < |level| && i < |level[j]| && level[j][i] != Empty
    ensures TextureFor(level[j][i]).Some?
  {
  }
}
