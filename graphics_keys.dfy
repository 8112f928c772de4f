/** The resource keys of `thor::Resources`: `ImageKey`, `ShaderKey` and `FontKey`. A key pairs an
    opaque loader (a bound SFML loading call) with its key info, the tuple the factory streamed
    into the tagger: kind tag, parameters, user tag. Keys are ordered by key info alone. */
module GraphicsKeys {
  import opened AssociativeHelpers

  /** A colour channel, `sf::Uint8`. */
  type Byte = x: int | 0 <= x < 256

  /** `sf::Color`. */
  datatype Colour = Colour(r: Byte, g: Byte, b: Byte, a: Byte)

  /** One value streamed into the tagger: a string, an unsigned number, a pointer value (an
      address, never the bytes behind it) or a colour. */
  datatype KeyComponent =
    | Text(text: string)
    | Natural(value: nat)
    | Address(address: nat)
    | Tint(colour: Colour)

  /** The key info of one key. */
  type KeyInfo = seq<KeyComponent>

  // ----------------------------------------------------------------------------------------------
  // The order on key info: lexicographic over components.

  /** Lexicographic comparison: the first differing element decides; a proper prefix is smaller. */
  predicate LexLess<T>(a: seq<T>, b: seq<T>, less: (T, T) -> bool)
    decreases |a|
  {
    if a == [] then b != []
    else if b == [] then false
    else if less(a[0], b[0]) then true
    else if less(b[0], a[0]) then false
    else LexLess(a[1..], b[1..], less)
  }

  lemma {:induction false} LexIrreflexive<T(!new)>(a: seq<T>, less: (T, T) -> bool)
    requires StrictTotalOrder(less)
    ensures !LexLess(a, a, less)
    decreases |a|
  {
    if a != [] {
      LexIrreflexive(a[1..], less);
    }
  }

  lemma {:induction false} LexTransitive<T(!new)>(a: seq<T>, b: seq<T>, c: seq<T>, less: (T, T) -> bool)
    requires StrictTotalOrder(less)
    requires LexLess(a, b, less) && LexLess(b, c, less)
    ensures LexLess(a, c, less)
    decreases |a|
  {
    if a != [] && b != [] && c != [] && !less(a[0], b[0]) && !less(b[0], c[0]) {
      assert a[0] == b[0] && b[0] == c[0];
      LexTransitive(a[1..], b[1..], c[1..], less);
    }
  }

  lemma {:induction false} LexTotal<T(!new)>(a: seq<T>, b: seq<T>, less: (T, T) -> bool)
    requires StrictTotalOrder(less)
    requires a != b
    ensures LexLess(a, b, less) || LexLess(b, a, less)
    decreases |a|
  {
    if a != [] && b != [] && !less(a[0], b[0]) && !less(b[0], a[0]) {
      assert a[0] == b[0];
      assert a == [a[0]] + a[1..] && b == [b[0]] + b[1..];
      LexTotal(a[1..], b[1..], less);
    }
  }

  function IntLess(x: int, y: int): bool { x < y }

  function CharLess(x: char, y: char): bool { x < y }

  function Channels(c: Colour): seq<int> { [c.r, c.g, c.b, c.a] }

  function Rank(c: KeyComponent): nat
  {
    match c
    case Text(_) => 0
    case Natural(_) => 1
    case Address(_) => 2
    case Tint(_) => 3
  }

  /** The order on components: by kind of value, then by value (strings and colours
      lexicographically). */
  function ComponentLess(x: KeyComponent, y: KeyComponent): bool
  {
    if Rank(x) != Rank(y) then Rank(x) < Rank(y)
    else match x
      case Text(s) => LexLess(s, y.text, CharLess)
      case Natural(n) => n < y.value
      case Address(p) => p < y.address
      case Tint(c) => LexLess(Channels(c), Channels(y.colour), IntLess)
  }

  /** Equal channel lists mean equal colours. */
  lemma ChannelsInjective(c: Colour, d: Colour)
    requires Channels(c) == Channels(d)
    ensures c == d
  {
    assert Channels(c)[0] == Channels(d)[0] && Channels(c)[1] == Channels(d)[1];
    assert Channels(c)[2] == Channels(d)[2] && Channels(c)[3] == Channels(d)[3];
  }

  /** The component order is a strict total order. */
  lemma ComponentOrderIsStrictTotal()
    ensures StrictTotalOrder(ComponentLess)
  {
    assert StrictTotalOrder(CharLess) && StrictTotalOrder(IntLess);
    forall x: KeyComponent
      ensures !ComponentLess(x, x)
    {
      if x.Text? {
        LexIrreflexive(x.text, CharLess);
      } else if x.Tint? {
        LexIrreflexive(Channels(x.colour), IntLess);
      }
    }
    forall x, y, z | ComponentLess(x, y) && ComponentLess(y, z)
      ensures ComponentLess(x, z)
    {
      if Rank(x) == Rank(y) == Rank(z) {
        if x.Text? {
          LexTransitive(x.text, y.text, z.text, CharLess);
        } else if x.Tint? {
          LexTransitive(Channels(x.colour), Channels(y.colour), Channels(z.colour), IntLess);
        }
      }
    }
    forall x, y | x != y
      ensures ComponentLess(x, y) || ComponentLess(y, x)
    {
      if x.Text? && y.Text? {
        LexTotal(x.text, y.text, CharLess);
      } else if x.Tint? && y.Tint? {
        if Channels(x.colour) == Channels(y.colour) {
          ChannelsInjective(x.colour, y.colour);
        }
        LexTotal(Channels(x.colour), Channels(y.colour), IntLess);
      }
    }
  }

  /** `detail::GetKeyInfo(lhs) < detail::GetKeyInfo(rhs)`. */
  predicate InfoLess(a: KeyInfo, b: KeyInfo)
  {
    LexLess(a, b, ComponentLess)
  }

  /** The key-info order is a strict total order: irreflexive, transitive, and two key infos are
      equivalent (neither is less) exactly when they are equal. */
  lemma InfoOrder(a: KeyInfo, b: KeyInfo, c: KeyInfo)
    ensures !InfoLess(a, a)
    ensures InfoLess(a, b) && InfoLess(b, c) ==> InfoLess(a, c)
    ensures !InfoLess(a, b) && !InfoLess(b, a) <==> a == b
  {
    ComponentOrderIsStrictTotal();
    LexIrreflexive(a, ComponentLess);
    if InfoLess(a, b) && InfoLess(b, c) {
      LexTransitive(a, b, c, ComponentLess);
    }
    if a != b {
      LexTotal(a, b, ComponentLess);
    } else {
      LexIrreflexive(b, ComponentLess);
    }
  }

  // ----------------------------------------------------------------------------------------------
  // Loaders: the bound SFML calls, as data.

  datatype ImageLoader =
    | CreateImage(width: nat, height: nat, fill: Colour)
    | ImageFromFile(fileName: string)
    | ImageFromMemory(data: nat, size: nat)
    | ImageFromPixels(pixelWidth: nat, pixelHeight: nat, pixels: nat)

  datatype ShaderLoader = ShaderFromFile(fileName: string) | ShaderFromMemory(code: string)

  datatype FontLoader = FontFromFile(fileName: string) | FontFromMemory(data: nat, size: nat)

  /** What `detail::LoadResource` makes of a loader call: the loaded resource, or the failure
      it reports as `ResourceLoadingException`. */
  datatype LoadResult = Loaded(resource: nat) | LoadingFailed

  // ----------------------------------------------------------------------------------------------
  // Key info as the factories build it.

  /** `Tagger(kind) << parameters... << tag`. */
  function Tagged(kind: string, parameters: seq<KeyComponent>, tag: string): (info: KeyInfo)
    ensures |info| == |parameters| + 2
    ensures info[0] == Text(kind) && info[|info| - 1] == Text(tag)
    ensures info[1..|info| - 1] == parameters
  {
    [Text(kind)] + parameters + [Text(tag)]
  }

  /** Key info determines kind, parameters and tag: the tuple encoding is injective. */
  lemma TaggedInjective(k1: string, p1: seq<KeyComponent>, t1: string, k2: string, p2: seq<KeyComponent>, t2: string)
    requires Tagged(k1, p1, t1) == Tagged(k2, p2, t2)
    ensures k1 == k2 && p1 == p2 && t1 == t2
  {
    var info := Tagged(k1, p1, t1);
    assert info[0] == Text(k1) && info[0] == Text(k2);
    assert info[1..|info| - 1] == p1 && info[1..|info| - 1] == p2;
    assert info[|info| - 1] == Text(t1) && info[|info| - 1] == Text(t2);
  }

  function SizeInfo(width: nat, height: nat, fill: Colour, tag: string): KeyInfo
  {
    Tagged("Size", [Natural(width), Natural(height), Tint(fill)], tag)
  }

  function FileInfo(fileName: string, tag: string): KeyInfo
  {
    Tagged("File", [Text(fileName)], tag)
  }

  /** Memory keys carry the data address and the size, never the bytes. */
  function MemoryInfo(data: nat, size: nat, tag: string): KeyInfo
  {
    Tagged("Memory", [Address(data), Natural(size)], tag)
  }

  function PixelsInfo(width: nat, height: nat, pixels: nat, tag: string): KeyInfo
  {
    Tagged("Pixels", [Natural(width), Natural(height), Address(pixels)], tag)
  }

  function ShaderCodeInfo(code: string, tag: string): KeyInfo
  {
    Tagged("Memory", [Text(code)], tag)
  }

  /** Keys of different kinds never share key info, whatever their parameters and tags. */
  lemma KindsNeverCollide(w: nat, h: nat, fill: Colour, file: string, data: nat, size: nat, pw: nat, ph: nat, pixels: nat, t1: string, t2: string)
    ensures SizeInfo(w, h, fill, t1) != FileInfo(file, t2)
    ensures SizeInfo(w, h, fill, t1) != MemoryInfo(data, size, t2)
    ensures SizeInfo(w, h, fill, t1) != PixelsInfo(pw, ph, pixels, t2)
    ensures FileInfo(file, t1) != MemoryInfo(data, size, t2)
    ensures FileInfo(file, t1) != PixelsInfo(pw, ph, pixels, t2)
    ensures MemoryInfo(data, size, t1) != PixelsInfo(pw, ph, pixels, t2)
  {
    assert SizeInfo(w, h, fill, t1)[0] == Text("Size");
    assert FileInfo(file, t1)[0] == Text("File") && FileInfo(file, t2)[0] == Text("File");
    assert MemoryInfo(data, size, t1)[0] == Text("Memory") && MemoryInfo(data, size, t2)[0] == Text("Memory");
    assert PixelsInfo(pw, ph, pixels, t2)[0] == Text("Pixels");
  }

  /** Two file keys are equivalent exactly when file name and tag agree: the user tag takes part
      in key identity. */
  lemma FileKeysEquivalence(f1: string, t1: string, f2: string, t2: string)
    ensures !InfoLess(FileInfo(f1, t1), FileInfo(f2, t2)) && !InfoLess(FileInfo(f2, t2), FileInfo(f1, t1))
      <==> f1 == f2 && t1 == t2
  {
    InfoOrder(FileInfo(f1, t1), FileInfo(f2, t2), FileInfo(f1, t1));
    if FileInfo(f1, t1) == FileInfo(f2, t2) {
      TaggedInjective("File", [Text(f1)], t1, "File", [Text(f2)], t2);
      assert [Text(f1)][0] == [Text(f2)][0];
    }
  }

  /** Two memory keys are equivalent exactly when address, size and tag agree. */
  lemma MemoryKeysEquivalence(d1: nat, s1: nat, t1: string, d2: nat, s2: nat, t2: string)
    ensures !InfoLess(MemoryInfo(d1, s1, t1), MemoryInfo(d2, s2, t2)) && !InfoLess(MemoryInfo(d2, s2, t2), MemoryInfo(d1, s1, t1))
      <==> d1 == d2 && s1 == s2 && t1 == t2
  {
    InfoOrder(MemoryInfo(d1, s1, t1), MemoryInfo(d2, s2, t2), MemoryInfo(d1, s1, t1));
    if MemoryInfo(d1, s1, t1) == MemoryInfo(d2, s2, t2) {
      TaggedInjective("Memory", [Address(d1), Natural(s1)], t1, "Memory", [Address(d2), Natural(s2)], t2);
      assert [Address(d1), Natural(s1)][0] == [Address(d2), Natural(s2)][0];
      assert [Address(d1), Natural(s1)][1] == [Address(d2), Natural(s2)][1];
    }
  }

  // ----------------------------------------------------------------------------------------------
  // The key classes.

  /** One resource key: `ImageKey` (`Key<ImageLoader>`), `ShaderKey` or `FontKey`. */
  class Key<L> {
    var loader: L
    var info: KeyInfo

    constructor (loader: L, info: KeyInfo)
      ensures this.loader == loader && this.info == info
    {
      this.loader, this.info := loader, info;
    }

    /** `operator<`: compares key info, never the loader. */
    predicate Less(other: Key<L>)
      reads this, other
    {
      InfoLess(info, other.info)
    }

    /** `Load()`: the key's own loader call, whose failure is reported to the caller. */
    method Load(run: L -> LoadResult) returns (r: LoadResult)
      ensures r == run(loader)
    {
      r := run(loader);
    }

    /** Exchanges loader and key info with `other`, and nothing else. */
    method Swap(other: Key<L>)
      modifies this, other
      ensures loader == old(other.loader) && info == old(other.info)
      ensures other.loader == old(loader) && other.info == old(info)
    {
      loader, other.loader := other.loader, loader;
      info, other.info := other.info, info;
    }
  }

  /** Key order and key equivalence depend on key info only: two keys whose loaders differ but
      whose key infos agree are equivalent, and keys are equivalent only when key infos agree. */
  lemma KeyEquivalenceIsInfoEquality<L>(a: Key<L>, b: Key<L>)
    ensures !a.Less(b) && !b.Less(a) <==> a.info == b.info
  {
    InfoOrder(a.info, b.info, a.info);
  }

  /** `ImageKey::FromSize`: creates an image of the given size and colour. */
  method ImageFromSize(width: nat, height: nat, fill: Colour, tag: string) returns (k: Key<ImageLoader>)
    ensures fresh(k) && k.loader == CreateImage(width, height, fill)
    ensures k.info == SizeInfo(width, height, fill, tag)
  {
    k := new Key(CreateImage(width, height, fill), SizeInfo(width, height, fill, tag));
  }

  /** `ImageKey::FromFile`. */
  method ImageFromFileKey(fileName: string, tag: string) returns (k: Key<ImageLoader>)
    ensures fresh(k) && k.loader == ImageFromFile(fileName) && k.info == FileInfo(fileName, tag)
  {
    k := new Key(ImageFromFile(fileName), FileInfo(fileName, tag));
  }

  /** `ImageKey::FromMemory`. */
  method ImageFromMemoryKey(data: nat, size: nat, tag: string) returns (k: Key<ImageLoader>)
    ensures fresh(k) && k.loader == ImageFromMemory(data, size) && k.info == MemoryInfo(data, size, tag)
  {
    k := new Key(ImageFromMemory(data, size), MemoryInfo(data, size, tag));
  }

  /** `ImageKey::FromPixels`. */
  method ImageFromPixelsKey(width: nat, height: nat, pixels: nat, tag: string) returns (k: Key<ImageLoader>)
    ensures fresh(k) && k.loader == ImageFromPixels(width, height, pixels)
    ensures k.info == PixelsInfo(width, height, pixels, tag)
  {
    k := new Key(ImageFromPixels(width, height, pixels), PixelsInfo(width, height, pixels, tag));
  }

  /** `ShaderKey::FromFile`. */
  method ShaderFromFileKey(fileName: string, tag: string) returns (k: Key<ShaderLoader>)
    ensures fresh(k) && k.loader == ShaderFromFile(fileName) && k.info == FileInfo(fileName, tag)
  {
    k := new Key(ShaderFromFile(fileName), FileInfo(fileName, tag));
  }

  /** `ShaderKey::FromMemory`: the shader code itself is the parameter. */
  method ShaderFromMemoryKey(code: string, tag: string) returns (k: Key<ShaderLoader>)
    ensures fresh(k) && k.loader == ShaderFromMemory(code) && k.info == ShaderCodeInfo(code, tag)
  {
    k := new Key(ShaderFromMemory(code), ShaderCodeInfo(code, tag));
  }

  /** `FontKey::FromFile`. */
  method FontFromFileKey(fileName: string, tag: string) returns (k: Key<FontLoader>)
    ensures fresh(k) && k.loader == FontFromFile(fileName) && k.info == FileInfo(fileName, tag)
  {
    k := new Key(FontFromFile(fileName), FileInfo(fileName, tag));
  }

  /** `FontKey::FromMemory`. */
  method FontFromMemoryKey(data: nat, size: nat, tag: string) returns (k: Key<FontLoader>)
    ensures fresh(k) && k.loader == FontFromMemory(data, size) && k.info == MemoryInfo(data, size, tag)
  {
    k := new Key(FontFromMemory(data, size), MemoryInfo(data, size, tag));
  }
}
