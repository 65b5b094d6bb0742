/** The palette loop of the lossy PNG path of `process_single_file`: the
    RGBA entries `imagequant` chose are split into a PLTE chunk (r, g, b per
    entry) and a tRNS chunk (one alpha per entry), and the tRNS chunk is
    attached only when some entry is not fully opaque. */
module Palette {
  import opened Common

  /** One palette entry as the quantizer returns it. */
  datatype Rgba = Rgba(r: byte, g: byte, b: byte, a: byte)

  /** The alpha of a fully opaque entry. */
  const Opaque: byte := 255

  /** The PLTE bytes of `palette`: red, green, blue of each entry in order. */
  function PlteOf(palette: seq<Rgba>): seq<byte>
  {
    if palette == [] then []
    else
      var last := palette[|palette| - 1];
      PlteOf(palette[..|palette| - 1]) + [last.r, last.g, last.b]
  }

  /** The tRNS bytes of `palette`: the alpha of each entry in order. */
  function TrnsOf(palette: seq<Rgba>): seq<byte>
  {
    if palette == [] then [] else TrnsOf(palette[..|palette| - 1]) + [palette[|palette| - 1].a]
  }

  /** Some entry is not fully opaque. */
  predicate HasTranslucentEntry(palette: seq<Rgba>)
  {
    exists i | 0 <= i < |palette| :: palette[i].a < Opaque
  }

  /** The tRNS chunk handed to the encoder: present exactly when some entry
      is translucent, and then one alpha per entry, in entry order. */
  function TrnsChunk(palette: seq<Rgba>): (r: Option<seq<byte>>)
    ensures r.Some? <==> exists i | 0 <= i < |palette| :: palette[i].a < Opaque
    ensures r.Some? ==> |r.value| == |palette| && forall i | 0 <= i < |palette| :: r.value[i] == palette[i].a
  {
    TrnsLayout(palette);
    if HasTranslucentEntry(palette) then Some(TrnsOf(palette)) else None
  }

  /** PLTE holds three bytes per entry, r, g, b of entry `i` at `3 * i`. */
  lemma {:induction false} PlteLayout(palette: seq<Rgba>)
    ensures |PlteOf(palette)| == 3 * |palette|
    ensures forall i | 0 <= i < |palette| ::
              PlteOf(palette)[3 * i] == palette[i].r &&
              PlteOf(palette)[3 * i + 1] == palette[i].g &&
              PlteOf(palette)[3 * i + 2] == palette[i].b
  {
    if palette != [] {
      var init := palette[..|palette| - 1];
      PlteLayout(init);
      forall i | 0 <= i < |init|
        ensures PlteOf(palette)[3 * i] == palette[i].r
        ensures PlteOf(palette)[3 * i + 1] == palette[i].g
        ensures PlteOf(palette)[3 * i + 2] == palette[i].b
      {
        assert palette[i] == init[i];
      }
    }
  }

  /** tRNS holds one alpha per entry, in entry order. */
  lemma {:induction false} TrnsLayout(palette: seq<Rgba>)
    ensures |TrnsOf(palette)| == |palette|
    ensures forall i | 0 <= i < |palette| :: TrnsOf(palette)[i] == palette[i].a
  {
    if palette != [] {
      var init := palette[..|palette| - 1];
      TrnsLayout(init);
      forall i | 0 <= i < |init| ensures TrnsOf(palette)[i] == palette[i].a {
        assert palette[i] == init[i];
      }
    }
  }

  /** The loop over the palette: push r, g, b into PLTE and a into tRNS,
      and raise the transparency flag on any alpha below 255. */
  method SplitPalette(palette: seq<Rgba>) returns (plte: seq<byte>, trns: seq<byte>, hasTransparency: bool)
    ensures plte == PlteOf(palette) && trns == TrnsOf(palette)
    ensures |plte| == 3 * |palette| && |trns| == |palette|
    ensures forall i | 0 <= i < |palette| ::
              plte[3 * i] == palette[i].r && plte[3 * i + 1] == palette[i].g &&
              plte[3 * i + 2] == palette[i].b && trns[i] == palette[i].a
    ensures hasTransparency <==> HasTranslucentEntry(palette)
  {
    plte, trns, hasTransparency := [], [], false;
    var i := 0;
    while i < |palette|
      invariant 0 <= i <= |palette|
      invariant plte == PlteOf(palette[..i]) && trns == TrnsOf(palette[..i])
      invariant hasTransparency <==> HasTranslucentEntry(palette[..i])
    {
      var px := palette[i];
      assert palette[..i + 1][..i] == palette[..i];
      plte := plte + [px.r];
      plte := plte + [px.g];
      plte := plte + [px.b];
      trns := trns + [px.a];
      if px.a < Opaque {
        hasTransparency := true;
      }
      assert palette[..i + 1][i] == px;
      assert HasTranslucentEntry(palette[..i + 1]) <==>
               HasTranslucentEntry(palette[..i]) || px.a < Opaque by {
        if HasTranslucentEntry(palette[..i]) {
          var k :| 0 <= k < i && palette[..i][k].a < Opaque;
          assert palette[..i + 1][k] == palette[..i][k];
        }
        if HasTranslucentEntry(palette[..i + 1]) {
          var k :| 0 <= k < i + 1 && palette[..i + 1][k].a < Opaque;
          if k < i { assert palette[..i][k] == palette[..i + 1][k]; }
        }
      }
      i := i + 1;
    }
    assert palette[..i] == palette;
    PlteLayout(palette);
    TrnsLayout(palette);
  }
}
