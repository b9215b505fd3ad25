/** The composition loop of `main` (main.go:141-231): clone the background, sort the layers
    by depth, then draw them one by one, image layers through `imaging.Overlay` and text
    layers through `drawText`, with a per-run font cache keyed by font name.

    The error policy is asymmetric. An image layer whose file does not load is skipped
    (`continue`); a bad colour or any failure while building a font face ends the run
    (`return`), so the save at main.go:240 is never reached.

    Everything the loop calls into (image decoding and resizing, the float conversion of
    percentages to pixels, the font files, the OpenType parser and the face constructor,
    text measurement) is an opaque function gathered in `Env`. */
module Composition {
  import opened Basics
  import opened HexColor
  import opened TextLayout
  import opened Drawing
  import opened Layers

  /** `runtime.GOOS`, as far as the font lookup distinguishes it. */
  datatype Platform = Windows | Darwin | OtherPlatform

  /** A parsed `*opentype.Font`. */
  datatype Font = Font(handle: nat)

  datatype Env = Env(
    goos: Platform,
    open: seq<byte> -> Option<Raster>,        // loadImage(filepath.Join("src", path))
    resize: (Raster, real) -> Raster,          // imaging.Resize(img, int(Dx * scale), int(Dy * scale), Lanczos)
    toPixel: (nat, real) -> int,               // int(float64(extent) * (percent / 100.0))
    missing: seq<byte> -> bool,                // os.IsNotExist(err) of os.Stat(path)
    readFile: seq<byte> -> Option<seq<byte>>,  // os.ReadFile(path)
    parse: seq<byte> -> Option<Font>,          // opentype.Parse(bytes)
    newFace: (Font, real) -> Option<Face>,     // opentype.NewFace(f, size scale * 12, 72 dpi, full hinting)
    measure: (Face, seq<byte>) -> int          // font.MeasureString(face, line).Ceil()
  )

  datatype FontError =
    | UnsupportedPlatform
    | FontMissing(path: seq<byte>)
    | FontUnreadable(path: seq<byte>)
    | FontUnparsable(path: seq<byte>)
    | FaceFailed(path: seq<byte>)

  /** Why a run ends before the save. */
  datatype Halt =
    | ColorPanic                         // parseHexColor("") indexes s[0]: a runtime panic
    | BadColor(colorError: ColorError)   // main.go:177-181
    | FontFailure(fontError: FontError)  // main.go:186-222

  /** The loop's variables: the font cache and what has been painted on `outputImg`. */
  datatype State = State(fontCache: map<seq<byte>, Face>, paints: seq<Paint>)

  datatype StepResult = Next(state: State) | Stop(halt: Halt)

  /** The loop either runs to the end and hands its canvas to the save, or halts. */
  datatype Outcome = ReachesSave(state: State) | Halted(halt: Halt)

  const ImageKind: seq<byte> := Ascii("image")
  const TextKind: seq<byte> := Ascii("text")

  /** The font directory and path separator of main.go:186-195: only Windows and macOS
      have one, each with its own separator. */
  function FontDir(goos: Platform): (r: Option<(seq<byte>, byte)>)
    ensures r.Some? <==> goos != OtherPlatform
    ensures goos == Windows ==> r.value.1 == 0x5C
    ensures goos == Darwin ==> r.value.1 == 0x2F
  {
    match goos
    case Windows => Some((Ascii("C:\\Windows\\Fonts"), 0x5C))
    case Darwin => Some((Ascii("/Library/Fonts"), 0x2F))
    case OtherPlatform => None
  }

  /** `filepath.Join(fontDir, name + ".ttf")`. */
  function FontPath(goos: Platform, name: seq<byte>): (path: seq<byte>)
    requires goos != OtherPlatform
  {
    var (dir, sep) := FontDir(goos).value;
    dir + [sep] + name + Ascii(".ttf")
  }

  /** Building the face for a font that is not cached yet (main.go:185-222): every step can
      fail, the first failure is the one reported, and a face is only ever built from a font
      file that exists and was read. */
  function LoadFace(env: Env, name: seq<byte>, scale: real): (r: Result<Face, FontError>)
    ensures env.goos == OtherPlatform <==> r == Err(UnsupportedPlatform)
    ensures r.Err? && env.goos != OtherPlatform ==> r.error.path == FontPath(env.goos, name)
    ensures r.Ok? ==> !env.missing(FontPath(env.goos, name)) && env.readFile(FontPath(env.goos, name)).Some?
    ensures env.goos != OtherPlatform ==>
      var bytes := env.readFile(FontPath(env.goos, name));
      && (r.Ok? <==>
            && !env.missing(FontPath(env.goos, name))
            && bytes.Some? && env.parse(bytes.value).Some?
            && env.newFace(env.parse(bytes.value).value, scale).Some?)
      && (r.Ok? ==> Some(r.value) == env.newFace(env.parse(bytes.value).value, scale))
  {
    if env.goos == OtherPlatform then Err(UnsupportedPlatform)
    else
      var path := FontPath(env.goos, name);
      if env.missing(path) then Err(FontMissing(path))
      else match env.readFile(path)
        case None => Err(FontUnreadable(path))
        case Some(bytes) =>
          match env.parse(bytes)
          case None => Err(FontUnparsable(path))
          case Some(f) =>
            match env.newFace(f, scale)
            case None => Err(FaceFailed(path))
            case Some(face) => Ok(face)
  }

  /** `fontCache[item.Font]` with the load and the insert on a miss (main.go:183-225): the
      cache only grows, by this name at most, and the face returned is the one stored. */
  function CachedFace(env: Env, cache: map<seq<byte>, Face>, name: seq<byte>, scale: real)
    : (r: Result<(Face, map<seq<byte>, Face>), FontError>)
    ensures r.Ok? ==> Extends(cache, r.value.1) && r.value.1.Keys == cache.Keys + {name}
    ensures r.Ok? ==> r.value.1[name] == r.value.0
    ensures r.Err? ==> name !in cache
  {
    if name in cache then Ok((cache[name], cache))
    else match LoadFace(env, name, scale)
      case Err(e) => Err(e)
      case Ok(face) => Ok((face, cache[name := face]))
  }

  /** One pass of the loop body (main.go:150-230). Only a text layer can end the run; any
      other layer leaves the font cache as it is; nothing painted is ever taken back. The
      anchor is the percentage position resolved against the canvas size, which is the
      background's (main.go:163-164, 174-175). */
  function Step(env: Env, bg: Raster, st: State, item: Item): (r: StepResult)
    ensures r.Stop? ==> item.kind == TextKind
    ensures item.kind != TextKind ==> r.Next? && r.state.fontCache == st.fontCache
    ensures r.Next? ==> st.paints <= r.state.paints
  {
    var anchor := Point(env.toPixel(bg.width, item.pos.x), env.toPixel(bg.height, item.pos.y));
    if item.kind == ImageKind then
      match env.open(item.filePath)
      case None => Next(st)
      case Some(img) =>
        var scaled := env.resize(img, item.scale);
        var at := ImageTopLeft(anchor, scaled.width, scaled.height);
        Next(st.(paints := st.paints + [Blend(scaled, at, 1.0)]))
    else if item.kind == TextKind then
      if |item.color| == 0 then Stop(ColorPanic)
      else match ParseHexColor(item.color)
        case Err(e) => Stop(BadColor(e))
        case Ok(col) =>
          match CachedFace(env, st.fontCache, item.font, item.scale)
          case Err(e) => Stop(FontFailure(e))
          case Ok((face, cache)) =>
            Next(State(cache, st.paints + TextPaints(item.text, anchor, col, face, item.align, env.measure)))
    else Next(st)
  }

  /** The loop over the (already sorted) items. The canvas only gains paint, and a list
      without text layers always reaches the save with the font cache it started with. */
  function RunLayers(env: Env, bg: Raster, st: State, items: seq<Item>): (r: Outcome)
    ensures r.ReachesSave? ==> st.paints <= r.state.paints
    ensures (forall i :: 0 <= i < |items| ==> items[i].kind != TextKind) ==>
      r.ReachesSave? && r.state.fontCache == st.fontCache
    decreases |items|
  {
    if items == [] then ReachesSave(st)
    else match Step(env, bg, st, items[0])
      case Stop(h) => Halted(h)
      case Next(s) =>
        assert forall i :: 1 <= i < |items| ==> items[1..][i - 1] == items[i];
        RunLayers(env, bg, s, items[1..])
  }

  // ---------------------------------------------------------------------------
  // The font cache
  // ---------------------------------------------------------------------------

  /** A cached font is reused whatever the scale of the layer asking for it: the key is the
      font name alone. */
  lemma CacheHitIgnoresScale(env: Env, cache: map<seq<byte>, Face>, name: seq<byte>, scale1: real, scale2: real)
    requires name in cache
    ensures CachedFace(env, cache, name, scale1) == CachedFace(env, cache, name, scale2) == Ok((cache[name], cache))
  {
  }

  /** A miss builds the face at the asking layer's scale and stores it under the name; every
      other entry stays as it was, and nothing is ever removed. */
  lemma CacheMissInserts(env: Env, cache: map<seq<byte>, Face>, name: seq<byte>, scale: real)
    requires name !in cache
    ensures CachedFace(env, cache, name, scale).Ok? <==> LoadFace(env, name, scale).Ok?
    ensures CachedFace(env, cache, name, scale).Ok? ==>
      var (face, next) := CachedFace(env, cache, name, scale).value;
      && face == LoadFace(env, name, scale).value
      && next.Keys == cache.Keys + {name}
      && next[name] == face
      && forall k :: k in cache ==> next[k] == cache[k]
  {
  }

  /** A text layer whose font is already cached goes on exactly when its colour parses; it
      then draws with the cached face and leaves the cache as it is. A well-formed colour is
      drawn as the corrected parser reads it. */
  lemma TextStepUsesCachedFace(env: Env, bg: Raster, st: State, item: Item)
    requires item.kind == TextKind && item.font in st.fontCache
    ensures Step(env, bg, st, item).Next? <==> |item.color| > 0 && ParseHexColor(item.color).Ok?
    ensures Step(env, bg, st, item).Next? ==>
      Step(env, bg, st, item) == Next(State(st.fontCache, st.paints + TextPaints(item.text,
        Point(env.toPixel(bg.width, item.pos.x), env.toPixel(bg.height, item.pos.y)),
        ParseHexColor(item.color).value, st.fontCache[item.font], item.align, env.measure)))
    ensures WellFormed(item.color) ==> ParseHexColor(item.color) == ParseHexColorStrict(item.color)
  {
    ImageKindIsNotText();
    if WellFormed(item.color) {
      StrictAgreesWithSource(item.color);
    }
  }

  /** Every text layer that goes on had a colour the parser accepts, and draws its lines in
      that colour with the face now cached under its font: the one already cached on a hit,
      or the one `LoadFace` built at this layer's scale on a miss. */
  lemma TextStepDraws(env: Env, bg: Raster, st: State, item: Item)
    requires item.kind == TextKind && Step(env, bg, st, item).Next?
    ensures |item.color| > 0 && ParseHexColor(item.color).Ok?
    ensures item.font in Step(env, bg, st, item).state.fontCache
    ensures var face := Step(env, bg, st, item).state.fontCache[item.font];
      && (item.font in st.fontCache ==> face == st.fontCache[item.font])
      && (item.font !in st.fontCache ==> LoadFace(env, item.font, item.scale) == Ok(face))
      && Step(env, bg, st, item).state.paints == st.paints + TextPaints(item.text,
           Point(env.toPixel(bg.width, item.pos.x), env.toPixel(bg.height, item.pos.y)),
           ParseHexColor(item.color).value, face, item.align, env.measure)
  {
    ImageKindIsNotText();
  }

  /** Where no font directory exists, a text layer whose font is not cached yet halts the
      run once its colour has parsed, and only such a layer does: a list without text layers
      still reaches the save. */
  lemma UnsupportedPlatformHaltsOnFontLookup(env: Env, bg: Raster, st: State, item: Item, items: seq<Item>)
    requires env.goos == OtherPlatform
    ensures item.kind == TextKind && |item.color| > 0 && ParseHexColor(item.color).Ok? && item.font !in st.fontCache ==>
      Step(env, bg, st, item) == Stop(FontFailure(UnsupportedPlatform))
    ensures (forall i :: 0 <= i < |items| ==> items[i].kind != TextKind) ==>
      RunLayers(env, bg, st, items).ReachesSave?
  {
    ImageKindIsNotText();
  }

  /** The fonts named by the text layers of `items`. */
  function TextFonts(items: seq<Item>): (names: set<seq<byte>>) {
    set i | 0 <= i < |items| && items[i].kind == TextKind :: items[i].font
  }

  /** The scale of the first text layer that names `name`. */
  function FirstScale(items: seq<Item>, name: seq<byte>): (scale: real)
    requires name in TextFonts(items)
    decreases |items|
  {
    if items[0].kind == TextKind && items[0].font == name then items[0].scale
    else
      assert name in TextFonts(items[1..]) by {
        var i :| 0 <= i < |items| && items[i].kind == TextKind && items[i].font == name;
        assert items[1..][i - 1] == items[i];
      }
      FirstScale(items[1..], name)
  }

  predicate Extends(small: map<seq<byte>, Face>, big: map<seq<byte>, Face>) {
    forall k :: k in small ==> k in big && big[k] == small[k]
  }

  lemma ImageKindIsNotText()
    ensures ImageKind != TextKind
  {
    assert ImageKind[0] != TextKind[0];
  }

  /** One step keeps every cached entry, and adds at most the font of a text layer. */
  lemma StepCache(env: Env, bg: Raster, st: State, item: Item)
    requires Step(env, bg, st, item).Next?
    ensures var next := Step(env, bg, st, item).state;
      && Extends(st.fontCache, next.fontCache)
      && next.fontCache.Keys == st.fontCache.Keys + (if item.kind == TextKind then {item.font} else {})
      && (item.kind == TextKind && item.font !in st.fontCache ==>
            LoadFace(env, item.font, item.scale) == Ok(next.fontCache[item.font]))
  {
    ImageKindIsNotText();
  }

  /** A run that reaches the save has cached exactly the fonts its text layers name, kept
      every entry it started with, and built each new face once, at the scale of the first
      text layer naming that font; later layers with the same font reuse it whatever their
      scale. */
  lemma {:induction false} RunCache(env: Env, bg: Raster, st: State, items: seq<Item>)
    requires RunLayers(env, bg, st, items).ReachesSave?
    ensures var final := RunLayers(env, bg, st, items).state.fontCache;
      && Extends(st.fontCache, final)
      && final.Keys == st.fontCache.Keys + TextFonts(items)
      && forall name :: name in TextFonts(items) && name !in st.fontCache ==>
           LoadFace(env, name, FirstScale(items, name)) == Ok(final[name])
    decreases |items|
  {
    if items != [] {
      var item := items[0];
      var next := Step(env, bg, st, item).state;
      StepCache(env, bg, st, item);
      RunCache(env, bg, next, items[1..]);
      var final := RunLayers(env, bg, st, items).state.fontCache;
      assert final == RunLayers(env, bg, next, items[1..]).state.fontCache;
      assert TextFonts(items) == (if item.kind == TextKind then {item.font} else {}) + TextFonts(items[1..]) by {
        forall name | name in TextFonts(items)
          ensures name in (if item.kind == TextKind then {item.font} else {}) + TextFonts(items[1..])
        {
          var i :| 0 <= i < |items| && items[i].kind == TextKind && items[i].font == name;
          if i > 0 {
            assert items[1..][i - 1] == items[i];
          }
        }
        forall name | name in TextFonts(items[1..]) ensures name in TextFonts(items) {
          var i :| 0 <= i < |items[1..]| && items[1..][i].kind == TextKind && items[1..][i].font == name;
          assert items[i + 1] == items[1..][i];
        }
      }
      forall name | name in TextFonts(items) && name !in st.fontCache
        ensures LoadFace(env, name, FirstScale(items, name)) == Ok(final[name])
      {
        if item.kind == TextKind && item.font == name {
          assert final[name] == next.fontCache[name];
        } else {
          assert name !in next.fontCache;
        }
      }
    }
  }

  // ---------------------------------------------------------------------------
  // The error policy
  // ---------------------------------------------------------------------------

  /** Running two lists one after the other is running their concatenation; a halt in the
      first list is the halt of the whole. */
  lemma {:induction false} RunAppend(env: Env, bg: Raster, st: State, xs: seq<Item>, ys: seq<Item>)
    ensures RunLayers(env, bg, st, xs + ys) ==
      match RunLayers(env, bg, st, xs)
      case ReachesSave(s) => RunLayers(env, bg, s, ys)
      case Halted(h) => Halted(h)
    decreases |xs|
  {
    if xs == [] {
      assert xs + ys == ys;
    } else {
      assert (xs + ys)[0] == xs[0];
      assert (xs + ys)[1..] == xs[1..] + ys;
      match Step(env, bg, st, xs[0])
      case Stop(h) =>
      case Next(s) => RunAppend(env, bg, s, xs[1..], ys);
    }
  }

  /** An image layer whose file does not load changes nothing: the run is the same as if the
      layer were not in the list (main.go:154-157). */
  lemma FailedImageIsSkipped(env: Env, bg: Raster, st: State, xs: seq<Item>, item: Item, ys: seq<Item>)
    requires item.kind == ImageKind && env.open(item.filePath).None?
    ensures RunLayers(env, bg, st, xs + [item] + ys) == RunLayers(env, bg, st, xs + ys)
  {
    RunAppend(env, bg, st, xs, [item] + ys);
    RunAppend(env, bg, st, xs, ys);
    assert xs + [item] + ys == xs + ([item] + ys);
    match RunLayers(env, bg, st, xs)
    case Halted(h) =>
    case ReachesSave(s) =>
      assert ([item] + ys)[1..] == ys;
  }

  /** A text layer with a bad colour, or whose font cannot be loaded, halts the run as soon
      as it is reached, and no later layer is drawn (main.go:177-181, 186-222). */
  lemma ReachedFailureHalts(env: Env, bg: Raster, st: State, xs: seq<Item>, item: Item, ys: seq<Item>)
    requires RunLayers(env, bg, st, xs).ReachesSave?
    requires item.kind == TextKind
    requires var s := RunLayers(env, bg, st, xs).state;
      || |item.color| == 0
      || ParseHexColor(item.color).Err?
      || (item.font !in s.fontCache && LoadFace(env, item.font, item.scale).Err?)
    ensures RunLayers(env, bg, st, xs + [item] + ys).Halted?
  {
    ImageKindIsNotText();
    RunAppend(env, bg, st, xs, [item] + ys);
    assert xs + [item] + ys == xs + ([item] + ys);
  }

  /** A run reaches the save only if every text layer in it has a colour the parser accepts
      and a font the cache holds at the end. */
  lemma {:induction false} SaveMeansTextLayersResolved(env: Env, bg: Raster, st: State, items: seq<Item>)
    requires RunLayers(env, bg, st, items).ReachesSave?
    ensures forall i :: 0 <= i < |items| && items[i].kind == TextKind ==>
      && |items[i].color| > 0 && ParseHexColor(items[i].color).Ok?
      && items[i].font in RunLayers(env, bg, st, items).state.fontCache
    decreases |items|
  {
    if items != [] {
      ImageKindIsNotText();
      var next := Step(env, bg, st, items[0]).state;
      SaveMeansTextLayersResolved(env, bg, next, items[1..]);
      RunCache(env, bg, next, items[1..]);
      StepCache(env, bg, st, items[0]);
      forall i | 0 <= i < |items| && items[i].kind == TextKind
        ensures |items[i].color| > 0 && ParseHexColor(items[i].color).Ok?
        ensures items[i].font in RunLayers(env, bg, st, items).state.fontCache
      {
        if i > 0 {
          assert items[1..][i - 1] == items[i];
        }
      }
    }
  }

  /** A layer of any other type is ignored. */
  lemma OtherKindIgnored(env: Env, bg: Raster, st: State, item: Item)
    requires item.kind != ImageKind && item.kind != TextKind
    ensures Step(env, bg, st, item) == Next(st)
  {
  }

  // ---------------------------------------------------------------------------
  // The run itself
  // ---------------------------------------------------------------------------

  /** One run of the program: `main`'s local variables from main.go:141 on. */
  class Composition {
    const env: Env
    const items: array<Item>     // config.CompositeItemList
    const canvas: Canvas         // outputImg
    var fontCache: map<seq<byte>, Face>

    function Current(): (st: State)
      reads this, canvas
    {
      State(fontCache, canvas.paints)
    }

    /** The decoded item list, `outputImg := imaging.Clone(bgImg)` and an empty font cache. */
    constructor (env: Env, background: Raster, layers: seq<Item>)
      ensures this.env == env && fresh(items) && fresh(canvas)
      ensures items[..] == layers && canvas.background == background
      ensures canvas.paints == [] && fontCache == map[]
    {
      this.env := env;
      items := new Item[|layers|](i requires 0 <= i < |layers| => layers[i]);
      canvas := new Canvas.Clone(background);
      fontCache := map[];
    }

    /** The loop body for one item; `Some(h)` where the source returns from `main`. */
    method DrawLayer(item: Item) returns (halt: Option<Halt>)
      modifies this, canvas
      ensures halt.None? ==> Step(env, canvas.background, old(Current()), item) == Next(Current())
      ensures halt.Some? ==> Step(env, canvas.background, old(Current()), item) == Stop(halt.value)
    {
      if item.kind == ImageKind {
        var img := env.open(item.filePath);
        if img.None? {
          return None;
        }
        var scaledImg := env.resize(img.value, item.scale);
        var posX := env.toPixel(canvas.Width(), item.pos.x);
        var posY := env.toPixel(canvas.Height(), item.pos.y);
        posX := posX - Quo(scaledImg.width, 2);
        posY := posY - Quo(scaledImg.height, 2);
        canvas.Overlay(scaledImg, Point(posX, posY));
        return None;
      } else if item.kind == TextKind {
        var posX := env.toPixel(canvas.Width(), item.pos.x);
        var posY := env.toPixel(canvas.Height(), item.pos.y);
        if |item.color| == 0 {
          return Some(ColorPanic);
        }
        var col := ParseHexColor(item.color);
        if col.Err? {
          return Some(BadColor(col.error));
        }
        var face;
        if item.font in fontCache {
          face := fontCache[item.font];
        } else {
          var loaded := LoadFace(env, item.font, item.scale);
          if loaded.Err? {
            return Some(FontFailure(loaded.error));
          }
          face := loaded.value;
          fontCache := fontCache[item.font := face];
        }
        canvas.DrawText(item.text, Point(posX, posY), col.value, face, item.align, env.measure);
        return None;
      }
      return None;
    }

    /** Sort the layers by depth, then draw them in that order until one halts the run. */
    method Compose() returns (outcome: Outcome)
      modifies this, items, canvas
      ensures SortedByDepth(items[..]) && multiset(items[..]) == multiset(old(items[..]))
      ensures outcome == RunLayers(env, canvas.background, old(Current()), items[..])
      ensures outcome.ReachesSave? ==> outcome.state == Current()
    {
      SortByDepth(items);
      ghost var start := Current();
      ghost var sorted := items[..];
      var i := 0;
      while i < items.Length
        modifies this, canvas
        invariant 0 <= i <= items.Length
        invariant items[..] == sorted
        invariant RunLayers(env, canvas.background, Current(), items[i..]) == RunLayers(env, canvas.background, start, items[..])
      {
        assert items[i..][0] == items[i] && items[i..][1..] == items[i + 1..];
        var halt := DrawLayer(items[i]);
        if halt.Some? {
          return Halted(halt.value);
        }
        i := i + 1;
      }
      return ReachesSave(Current());
    }
  }
}
