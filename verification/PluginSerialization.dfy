/**
 * Plugin serialisation of 3rdparty/onnx-tensorrt: serialize.hpp, plugin.{hpp,cpp}, PluginFactory.cpp and the four
 * built-in plugins. Values that memcpy moves are held as bit patterns: an int, a float or an enumeration is a Word,
 * a size_t is a Size.
 */
module PluginSerialization {
  import opened Basics

  type Byte = x: int | 0 <= x < 256
  type Word = x: int | 0 <= x < 0x1_0000_0000
  type Size = x: int | 0 <= x < 0x1_0000_0000_0000_0000

  // ---- Fixed-width little-endian values ----

  function Range(width: nat): nat {
    if width == 0 then 1 else 256 * Range(width - 1)
  }

  function Little(v: nat, width: nat): (b: seq<Byte>)
    ensures |b| == width
  {
    if width == 0 then [] else [v % 256] + Little(v / 256, width - 1)
  }

  function Value(b: seq<Byte>): (v: nat)
    ensures v < Range(|b|)
  {
    if b == [] then 0 else b[0] + 256 * Value(b[1..])
  }

  lemma {:induction false} ValueOfLittle(v: nat, width: nat)
    requires v < Range(width)
    ensures Value(Little(v, width)) == v
  {
    if width > 0 {
      ValueOfLittle(v / 256, width - 1);
      assert Little(v, width)[1..] == Little(v / 256, width - 1);
    }
  }

  lemma {:induction false} LittleOfValue(b: seq<Byte>)
    ensures Little(Value(b), |b|) == b
  {
    if b != [] {
      LittleOfValue(b[1..]);
      assert Value(b) % 256 == b[0] && Value(b) / 256 == Value(b[1..]);
    }
  }

  lemma Ranges()
    ensures Range(4) == 0x1_0000_0000 && Range(8) == 0x1_0000_0000_0000_0000
  {
    assert Range(1) == 256 && Range(2) == 0x1_0000 && Range(3) == 0x100_0000;
    assert Range(4) == 0x1_0000_0000 && Range(5) == 0x100_0000_0000 && Range(6) == 0x1_0000_0000_0000;
    assert Range(7) == 0x100_0000_0000_0000;
  }

  /** What a deserialiser returns: the value and the bytes left, or None when an assertion on the length fails. */
  type Parsed<T> = Option<(T, seq<Byte>)>

  function PutWord(w: Word): (b: seq<Byte>)
    ensures |b| == 4
  {
    Little(w, 4)
  }

  function GetWord(b: seq<Byte>): Parsed<Word> {
    if |b| < 4 then None else Ranges(); Some((Value(b[..4]), b[4..]))
  }

  function PutSize(n: Size): (b: seq<Byte>)
    ensures |b| == 8
  {
    Little(n, 8)
  }

  function GetSize(b: seq<Byte>): Parsed<Size> {
    if |b| < 8 then None else Ranges(); Some((Value(b[..8]), b[8..]))
  }

  lemma WordLaw(b: seq<Byte>, w: Word, rest: seq<Byte>)
    ensures GetWord(b) == Some((w, rest)) <==> b == PutWord(w) + rest
  {
    Ranges();
    if |b| >= 4 {
      LittleOfValue(b[..4]);
      assert b == b[..4] + b[4..];
    }
    ValueOfLittle(w, 4);
    assert (PutWord(w) + rest)[..4] == PutWord(w) && (PutWord(w) + rest)[4..] == rest;
  }

  lemma SizeLaw(b: seq<Byte>, n: Size, rest: seq<Byte>)
    ensures GetSize(b) == Some((n, rest)) <==> b == PutSize(n) + rest
  {
    Ranges();
    if |b| >= 8 {
      LittleOfValue(b[..8]);
      assert b == b[..8] + b[8..];
    }
    ValueOfLittle(n, 8);
    assert (PutSize(n) + rest)[..8] == PutSize(n) && (PutSize(n) + rest)[8..] == rest;
  }

  // ---- Arrays and vectors ----

  function PutWords(ws: seq<Word>): (b: seq<Byte>)
    ensures |b| == 4 * |ws|
  {
    if ws == [] then [] else PutWord(ws[0]) + PutWords(ws[1..])
  }

  function GetWords(b: seq<Byte>, n: nat): Parsed<seq<Word>> {
    if n == 0 then Some(([], b))
    else match GetWord(b)
      case None => None
      case Some((w, r)) => match GetWords(r, n - 1)
        case None => None
        case Some((ws, rest)) => Some(([w] + ws, rest))
  }

  lemma {:induction false} WordsLaw(b: seq<Byte>, n: nat, ws: seq<Word>, rest: seq<Byte>)
    ensures GetWords(b, n) == Some((ws, rest)) <==> |ws| == n && b == PutWords(ws) + rest
  {
    if n == 0 {
      assert ws == [] ==> PutWords(ws) + rest == rest;
    } else if ws != [] {
      WordLaw(b, ws[0], PutWords(ws[1..]) + rest);
      assert PutWords(ws) + rest == PutWord(ws[0]) + (PutWords(ws[1..]) + rest);
      if GetWord(b).Some? {
        var (w, r) := GetWord(b).value;
        WordLaw(b, w, r);
        WordsLaw(r, n - 1, ws[1..], rest);
        assert ws == [ws[0]] + ws[1..];
        if GetWords(r, n - 1).Some? {
          var (tail, rest') := GetWords(r, n - 1).value;
          assert ([w] + tail)[1..] == tail;
        }
      }
    }
  }

  /** A vector of 4-byte values: its length, then its elements. */
  function PutVector(ws: seq<Word>): (b: seq<Byte>)
    requires |ws| < 0x1_0000_0000_0000_0000
    ensures |b| == 8 + 4 * |ws|
  {
    PutSize(|ws|) + PutWords(ws)
  }

  function GetVector(b: seq<Byte>): Parsed<seq<Word>> {
    match GetSize(b)
    case None => None
    case Some((n, r)) => GetWords(r, n)
  }

  lemma VectorLaw(b: seq<Byte>, ws: seq<Word>, rest: seq<Byte>)
    ensures GetVector(b) == Some((ws, rest)) <==> |ws| < 0x1_0000_0000_0000_0000 && b == PutVector(ws) + rest
  {
    if GetSize(b).Some? {
      var (n, r) := GetSize(b).value;
      SizeLaw(b, n, r);
      WordsLaw(r, n, ws, rest);
      if n == |ws| { assert PutVector(ws) + rest == PutSize(n) + (PutWords(ws) + rest); }
    }
    if |ws| < 0x1_0000_0000_0000_0000 {
      SizeLaw(b, |ws|, PutWords(ws) + rest);
      WordsLaw(PutWords(ws) + rest, |ws|, ws, rest);
      assert PutVector(ws) + rest == PutSize(|ws|) + (PutWords(ws) + rest);
    }
  }

  /** nvinfer1::Dims as it lies in memory: nbDims, d[8] and type[8], 17 words. */
  const DIMS_WORDS := 17

  type Dims = d: seq<Word> | |d| == DIMS_WORDS witness seq(DIMS_WORDS, _ => 0)

  function PutDimsList(ds: seq<Dims>): (b: seq<Byte>)
    ensures |b| == 4 * DIMS_WORDS * |ds|
  {
    if ds == [] then [] else PutWords(ds[0]) + PutDimsList(ds[1..])
  }

  function GetDimsList(b: seq<Byte>, n: nat): Parsed<seq<Dims>>
    decreases n
  {
    if n == 0 then Some(([], b))
    else match GetWords(b, DIMS_WORDS)
      case None => None
      case Some((d, r)) =>
        WordsLaw(b, DIMS_WORDS, d, r);
        match GetDimsList(r, n - 1)
        case None => None
        case Some((ds, rest)) => Some(([d] + ds, rest))
  }

  lemma {:induction false} DimsListLaw(b: seq<Byte>, n: nat, ds: seq<Dims>, rest: seq<Byte>)
    ensures GetDimsList(b, n) == Some((ds, rest)) <==> |ds| == n && b == PutDimsList(ds) + rest
    decreases n
  {
    if n == 0 {
      assert ds == [] ==> PutDimsList(ds) + rest == rest;
    } else if ds != [] {
      WordsLaw(b, DIMS_WORDS, ds[0], PutDimsList(ds[1..]) + rest);
      assert PutDimsList(ds) + rest == PutWords(ds[0]) + (PutDimsList(ds[1..]) + rest);
      if GetWords(b, DIMS_WORDS).Some? {
        var (d, r) := GetWords(b, DIMS_WORDS).value;
        WordsLaw(b, DIMS_WORDS, d, r);
        DimsListLaw(r, n - 1, ds[1..], rest);
        assert ds == [ds[0]] + ds[1..];
        if GetDimsList(r, n - 1).Some? {
          var (tail, rest') := GetDimsList(r, n - 1).value;
          var d': Dims := d;
          assert ([d'] + tail)[1..] == tail;
        }
      }
    }
  }

  function PutDims(ds: seq<Dims>): (b: seq<Byte>)
    requires |ds| < 0x1_0000_0000_0000_0000
    ensures |b| == 8 + 4 * DIMS_WORDS * |ds|
  {
    PutSize(|ds|) + PutDimsList(ds)
  }

  function GetDims(b: seq<Byte>): Parsed<seq<Dims>> {
    match GetSize(b)
    case None => None
    case Some((n, r)) => GetDimsList(r, n)
  }

  lemma DimsLaw(b: seq<Byte>, ds: seq<Dims>, rest: seq<Byte>)
    ensures GetDims(b) == Some((ds, rest)) <==> |ds| < 0x1_0000_0000_0000_0000 && b == PutDims(ds) + rest
  {
    if GetSize(b).Some? {
      var (n, r) := GetSize(b).value;
      SizeLaw(b, n, r);
      DimsListLaw(r, n, ds, rest);
      if n == |ds| { assert PutDims(ds) + rest == PutSize(n) + (PutDimsList(ds) + rest); }
    }
    if |ds| < 0x1_0000_0000_0000_0000 {
      SizeLaw(b, |ds|, PutDimsList(ds) + rest);
      DimsListLaw(PutDimsList(ds) + rest, |ds|, ds, rest);
      assert PutDims(ds) + rest == PutSize(|ds|) + (PutDimsList(ds) + rest);
    }
  }

  // ---- C strings ----

  function PutString(s: seq<Byte>): (b: seq<Byte>)
    ensures |b| == |s| + 1
  {
    s + [0]
  }

  /** Up to the first NUL; None when there is none within the buffer. */
  function GetString(b: seq<Byte>): Parsed<seq<Byte>> {
    if b == [] then None
    else if b[0] == 0 then Some(([], b[1..]))
    else match GetString(b[1..])
      case None => None
      case Some((s, rest)) => Some(([b[0]] + s, rest))
  }

  lemma {:induction false} StringLaw(b: seq<Byte>, s: seq<Byte>, rest: seq<Byte>)
    ensures GetString(b) == Some((s, rest)) <==> 0 !in s && b == PutString(s) + rest
  {
    if b != [] {
      if b[0] == 0 {
        assert b == PutString([]) + b[1..];
        assert s != [] && b == PutString(s) + rest ==> s[0] == b[0];
      } else if s != [] {
        StringLaw(b[1..], s[1..], rest);
        assert PutString(s) + rest == [s[0]] + (PutString(s[1..]) + rest);
        assert s == [s[0]] + s[1..];
        assert b == [b[0]] + b[1..];
        if GetString(b[1..]).Some? {
          var (t, r) := GetString(b[1..]).value;
          assert ([b[0]] + t)[1..] == t;
        }
      }
    }
  }

  // ---- Plugins ----

  /** The fields serializeBase writes. */
  datatype Base = Base(inputDims: seq<Dims>, maxBatch: Size, dataType: Word, dataFormat: Word)

  /** The serialised fields of each built-in plugin. */
  datatype Body =
    | FancyActivation(kind: Word, alpha: Word, gamma: Word)
    | ResizeNearest(ndims: Word, scale: seq<Word>)
    | Split(axis: Word, outputLengths: seq<Word>)
    | InstanceNormalization(epsilon: Word, nchan: Word, hScale: seq<Word>, hBias: seq<Word>)

  datatype Plugin = Plugin(base: Base, body: Body)

  predicate Fits(n: nat) {
    n < 0x1_0000_0000_0000_0000
  }

  /** Vectors have a size_t length and the fixed array of ResizeNearest has MAX_DIMS entries. */
  predicate Representable(p: Plugin) {
    Fits(|p.base.inputDims|) &&
    match p.body
    case FancyActivation(_, _, _) => true
    case ResizeNearest(_, scale) => |scale| == MAX_DIMS
    case Split(_, lengths) => Fits(|lengths|)
    case InstanceNormalization(_, _, scale, bias) => Fits(|scale|) && Fits(|bias|)
  }

  function PutBase(base: Base): seq<Byte>
    requires Fits(|base.inputDims|)
  {
    PutDims(base.inputDims) + (PutSize(base.maxBatch) + (PutWord(base.dataType) + PutWord(base.dataFormat)))
  }

  function GetBase(b: seq<Byte>): Parsed<Base> {
    match GetDims(b)
    case None => None
    case Some((dims, r1)) => match GetSize(r1)
      case None => None
      case Some((batch, r2)) => match GetWord(r2)
        case None => None
        case Some((dtype, r3)) => match GetWord(r3)
          case None => None
          case Some((format, rest)) => Some((Base(dims, batch, dtype, format), rest))
  }

  lemma BaseParses(base: Base, rest: seq<Byte>)
    requires Fits(|base.inputDims|)
    ensures GetBase(PutBase(base) + rest) == Some((base, rest))
  {
    var r3 := PutWord(base.dataFormat) + rest;
    var r2 := PutWord(base.dataType) + r3;
    var r1 := PutSize(base.maxBatch) + r2;
    var b := PutDims(base.inputDims) + r1;
    assert PutBase(base) + rest == b;
    DimsLaw(b, base.inputDims, r1);
    SizeLaw(r1, base.maxBatch, r2);
    WordLaw(r2, base.dataType, r3);
    WordLaw(r3, base.dataFormat, rest);
  }

  lemma BaseDetermines(b: seq<Byte>)
    requires GetBase(b).Some?
    ensures var (base, rest) := GetBase(b).value; Fits(|base.inputDims|) && b == PutBase(base) + rest
  {
    var (dims, r1) := GetDims(b).value;
    var (batch, r2) := GetSize(r1).value;
    var (dtype, r3) := GetWord(r2).value;
    var (format, rest) := GetWord(r3).value;
    DimsLaw(b, dims, r1);
    SizeLaw(r1, batch, r2);
    WordLaw(r2, dtype, r3);
    WordLaw(r3, format, rest);
    assert PutBase(Base(dims, batch, dtype, format)) + rest
        == PutDims(dims) + (PutSize(batch) + (PutWord(dtype) + (PutWord(format) + rest)));
  }

  function PutBody(body: Body): seq<Byte>
    requires Representable(Plugin(Base([], 0, 0, 0), body))
  {
    match body
    case FancyActivation(kind, alpha, gamma) => PutWord(kind) + (PutWord(alpha) + PutWord(gamma))
    case ResizeNearest(ndims, scale) => PutWord(ndims) + PutWords(scale)
    case Split(axis, lengths) => PutWord(axis) + PutVector(lengths)
    case InstanceNormalization(epsilon, nchan, scale, bias) =>
      PutWord(epsilon) + (PutWord(nchan) + (PutVector(scale) + PutVector(bias)))
  }

  datatype Kind = Fancy | Resize | SplitKind | Instance

  function KindOf(body: Body): Kind {
    match body
    case FancyActivation(_, _, _) => Fancy
    case ResizeNearest(_, _) => Resize
    case Split(_, _) => SplitKind
    case InstanceNormalization(_, _, _, _) => Instance
  }

  function GetFancy(b: seq<Byte>): Parsed<Body> {
    match GetWord(b)
    case None => None
    case Some((kind, r1)) => match GetWord(r1)
      case None => None
      case Some((alpha, r2)) => match GetWord(r2)
        case None => None
        case Some((gamma, rest)) => Some((FancyActivation(kind, alpha, gamma), rest))
  }

  function GetResize(b: seq<Byte>): Parsed<Body> {
    match GetWord(b)
    case None => None
    case Some((ndims, r)) => match GetWords(r, MAX_DIMS)
      case None => None
      case Some((scale, rest)) => Some((ResizeNearest(ndims, scale), rest))
  }

  function GetSplit(b: seq<Byte>): Parsed<Body> {
    match GetWord(b)
    case None => None
    case Some((axis, r)) => match GetVector(r)
      case None => None
      case Some((lengths, rest)) => Some((Split(axis, lengths), rest))
  }

  function GetInstance(b: seq<Byte>): Parsed<Body> {
    match GetWord(b)
    case None => None
    case Some((epsilon, r1)) => match GetWord(r1)
      case None => None
      case Some((nchan, r2)) => match GetVector(r2)
        case None => None
        case Some((scale, r3)) => match GetVector(r3)
          case None => None
          case Some((bias, rest)) => Some((InstanceNormalization(epsilon, nchan, scale, bias), rest))
  }

  function GetBody(kind: Kind, b: seq<Byte>): Parsed<Body> {
    match kind
    case Fancy => GetFancy(b)
    case Resize => GetResize(b)
    case SplitKind => GetSplit(b)
    case Instance => GetInstance(b)
  }

  ghost predicate BodyFits(body: Body) {
    Representable(Plugin(Base([], 0, 0, 0), body))
  }

  lemma FancyParses(p: Body, rest: seq<Byte>)
    requires p.FancyActivation?
    ensures GetFancy(PutBody(p) + rest) == Some((p, rest))
  {
    var r2 := PutWord(p.gamma) + rest;
    var r1 := PutWord(p.alpha) + r2;
    WordLaw(PutWord(p.kind) + r1, p.kind, r1);
    WordLaw(r1, p.alpha, r2);
    WordLaw(r2, p.gamma, rest);
    assert PutBody(p) + rest == PutWord(p.kind) + r1;
  }

  lemma ResizeParses(p: Body, rest: seq<Byte>)
    requires p.ResizeNearest? && |p.scale| == MAX_DIMS
    ensures GetResize(PutBody(p) + rest) == Some((p, rest))
  {
    var r := PutWords(p.scale) + rest;
    WordLaw(PutWord(p.ndims) + r, p.ndims, r);
    WordsLaw(r, MAX_DIMS, p.scale, rest);
    assert PutBody(p) + rest == PutWord(p.ndims) + r;
  }

  lemma SplitParses(p: Body, rest: seq<Byte>)
    requires p.Split? && Fits(|p.outputLengths|)
    ensures GetSplit(PutBody(p) + rest) == Some((p, rest))
  {
    var r := PutVector(p.outputLengths) + rest;
    WordLaw(PutWord(p.axis) + r, p.axis, r);
    VectorLaw(r, p.outputLengths, rest);
    assert PutBody(p) + rest == PutWord(p.axis) + r;
  }

  lemma InstanceParses(p: Body, rest: seq<Byte>)
    requires p.InstanceNormalization? && Fits(|p.hScale|) && Fits(|p.hBias|)
    ensures GetInstance(PutBody(p) + rest) == Some((p, rest))
  {
    var r3 := PutVector(p.hBias) + rest;
    var r2 := PutVector(p.hScale) + r3;
    var r1 := PutWord(p.nchan) + r2;
    WordLaw(PutWord(p.epsilon) + r1, p.epsilon, r1);
    WordLaw(r1, p.nchan, r2);
    VectorLaw(r2, p.hScale, r3);
    VectorLaw(r3, p.hBias, rest);
    RegroupFour(PutWord(p.epsilon), PutWord(p.nchan), PutVector(p.hScale), PutVector(p.hBias), rest);
  }

  lemma RegroupFour(a: seq<Byte>, b: seq<Byte>, c: seq<Byte>, d: seq<Byte>, rest: seq<Byte>)
    ensures (a + (b + (c + d))) + rest == a + (b + (c + (d + rest)))
  {
  }

  lemma BodyParses(body: Body, rest: seq<Byte>)
    requires BodyFits(body)
    ensures GetBody(KindOf(body), PutBody(body) + rest) == Some((body, rest))
  {
    match body
    case FancyActivation(_, _, _) => FancyParses(body, rest);
    case ResizeNearest(_, _) => ResizeParses(body, rest);
    case Split(_, _) => SplitParses(body, rest);
    case InstanceNormalization(_, _, _, _) => InstanceParses(body, rest);
  }

  lemma BodyDetermines(kind: Kind, b: seq<Byte>)
    requires GetBody(kind, b).Some?
    ensures var (body, rest) := GetBody(kind, b).value;
            BodyFits(body) && KindOf(body) == kind && b == PutBody(body) + rest
  {
    var (body, rest) := GetBody(kind, b).value;
    var (first, r1) := GetWord(b).value;
    WordLaw(b, first, r1);
    match kind
    case Fancy =>
      var (alpha, r2) := GetWord(r1).value;
      WordLaw(r1, alpha, r2);
      WordLaw(r2, body.gamma, rest);
      assert PutBody(body) + rest == PutWord(first) + (PutWord(alpha) + (PutWord(body.gamma) + rest));
    case Resize =>
      WordsLaw(r1, MAX_DIMS, body.scale, rest);
      assert PutBody(body) + rest == PutWord(first) + (PutWords(body.scale) + rest);
    case SplitKind =>
      VectorLaw(r1, body.outputLengths, rest);
      assert PutBody(body) + rest == PutWord(first) + (PutVector(body.outputLengths) + rest);
    case Instance =>
      var (nchan, r2) := GetWord(r1).value;
      var (scale, r3) := GetVector(r2).value;
      WordLaw(r1, nchan, r2);
      VectorLaw(r2, scale, r3);
      VectorLaw(r3, body.hBias, rest);
      RegroupFour(PutWord(first), PutWord(nchan), PutVector(scale), PutVector(body.hBias), rest);
  }

  // ---- The type-tagged form ----

  /** Character codes of an ASCII literal. */
  function Ascii(s: string): (b: seq<Byte>)
    requires forall i :: 0 <= i < |s| ==> 0 < s[i] as int < 256
    ensures |b| == |s| && 0 !in b
  {
    seq(|s|, i requires 0 <= i < |s| => s[i] as int)
  }

  function Magic(): seq<Byte> { Ascii("Pv01") }

  function TypeName(kind: Kind): (b: seq<Byte>)
    ensures 0 !in b
  {
    match kind
    case Fancy => Ascii("FancyActivation")
    case Resize => Ascii("ResizeNearest")
    case SplitKind => Ascii("Split")
    case Instance => Ascii("InstanceNormalization")
  }

  /** Plugin::serialize of the built-in plugins. */
  function PutPlugin(p: Plugin): seq<Byte>
    requires Representable(p)
  {
    PutBase(p.base) + PutBody(p.body)
  }

  /** TypeSerializingPlugin::serialize. */
  function Wrapped(p: Plugin): seq<Byte>
    requires Representable(p)
  {
    PutString(Magic()) + (PutString(TypeName(KindOf(p.body))) + PutPlugin(p))
  }

  // The size functions, as the source adds them up.

  function BaseSize(base: Base): nat {
    (8 + 4 * DIMS_WORDS * |base.inputDims|) + 8 + 4 + 4
  }

  function PluginSize(p: Plugin): nat {
    match p.body
    case FancyActivation(_, _, _) => (4 + 4 + 4) + BaseSize(p.base)
    case ResizeNearest(_, _) => 4 + 4 * MAX_DIMS + BaseSize(p.base)
    case Split(_, lengths) => 4 + (8 + |lengths| * 4) + BaseSize(p.base)
    case InstanceNormalization(_, _, scale, bias) => (4 + 4 + (8 + |scale| * 4) + (8 + |bias| * 4)) + BaseSize(p.base)
  }

  /** getSerializationSize: sizeof the magic literal counts its NUL, and one more byte is for the type's NUL. */
  function SerializationSize(p: Plugin): nat {
    (|Magic()| + 1) + 1 + |TypeName(KindOf(p.body))| + PluginSize(p)
  }

  /** Serialisation writes exactly the number of bytes announced. */
  lemma WrappedHasAnnouncedSize(p: Plugin)
    requires Representable(p)
    ensures |PutPlugin(p)| == PluginSize(p) && |Wrapped(p)| == SerializationSize(p)
  {
  }

  // ---- Where every byte lies ----

  /** The part lies in the bytes at the offset. */
  ghost predicate LiesAt(b: seq<Byte>, offset: nat, part: seq<Byte>) {
    offset + |part| <= |b| && b[offset..offset + |part|] == part
  }

  /** The four bytes of a word, least significant first. */
  lemma WordBytes(w: Word)
    ensures PutWord(w) == [w % 256, w / 0x100 % 256, w / 0x1_0000 % 256, w / 0x100_0000 % 256]
  {
    var v1 := w / 256;
    var v2 := v1 / 256;
    var v3 := v2 / 256;
    assert Little(w, 4) == [w % 256] + Little(v1, 3);
    assert Little(v1, 3) == [v1 % 256] + Little(v2, 2);
    assert Little(v2, 2) == [v2 % 256] + Little(v3, 1);
    assert Little(v3, 1) == [v3 % 256];
  }

  /** A size is its low word followed by its high word. */
  lemma SizeBytes(low: Word, high: Word)
    ensures PutSize(low + 0x1_0000_0000 * high) == PutWord(low) + PutWord(high)
  {
    Ranges();
    LittleConcat(low, high, 4, 4);
  }

  lemma {:induction false} LittleConcat(low: nat, high: nat, a: nat, b: nat)
    requires low < Range(a)
    ensures Little(low + Range(a) * high, a + b) == Little(low, a) + Little(high, b)
  {
    if a > 0 {
      var r := Range(a - 1);
      var v := low + 256 * (r * high);
      assert Range(a) * high == 256 * (r * high);
      LowByte(low, r * high);
      LittleConcat(low / 256, high, a - 1, b);
    }
  }

  lemma LowByte(low: nat, x: nat)
    ensures (low + 256 * x) % 256 == low % 256 && (low + 256 * x) / 256 == low / 256 + x
  {
  }

  lemma TwoParts(a: seq<Byte>, b: seq<Byte>)
    ensures LiesAt(a + b, 0, a) && LiesAt(a + b, |a|, b)
  {
  }

  lemma LiesWithin(b: seq<Byte>, offset: nat, a: seq<Byte>, inner: nat, part: seq<Byte>)
    requires LiesAt(b, offset, a) && LiesAt(a, inner, part)
    ensures LiesAt(b, offset + inner, part)
  {
    forall i | 0 <= i < |part| ensures b[offset + inner + i] == part[i] {
      assert b[offset..offset + |a|][inner + i] == a[inner + i];
      assert a[inner..inner + |part|][i] == part[i];
    }
  }

  /** Four parts in a row lie one after the other. */
  lemma FourParts(a: seq<Byte>, b: seq<Byte>, c: seq<Byte>, d: seq<Byte>)
    ensures var all := a + (b + (c + d));
      && LiesAt(all, 0, a) && LiesAt(all, |a|, b)
      && LiesAt(all, |a| + |b|, c) && LiesAt(all, |a| + |b| + |c|, d)
  {
    var cd := c + d;
    var bcd := b + cd;
    TwoParts(a, bcd);
    TwoParts(b, cd);
    TwoParts(c, d);
    LiesWithin(a + bcd, |a|, bcd, 0, b);
    LiesWithin(a + bcd, |a|, bcd, |b|, cd);
    LiesWithin(a + bcd, |a| + |b|, cd, 0, c);
    LiesWithin(a + bcd, |a| + |b|, cd, |c|, d);
  }

  lemma {:induction false} WordLiesAt(ws: seq<Word>, k: nat)
    requires k < |ws|
    ensures LiesAt(PutWords(ws), 4 * k, PutWord(ws[k]))
  {
    TwoParts(PutWord(ws[0]), PutWords(ws[1..]));
    if k > 0 {
      WordLiesAt(ws[1..], k - 1);
      LiesWithin(PutWords(ws), 4, PutWords(ws[1..]), 4 * (k - 1), PutWord(ws[k]));
    }
  }

  lemma {:induction false} DimsWordLiesAt(ds: seq<Dims>, k: nat, m: nat)
    requires k < |ds| && m < 17
    ensures LiesAt(PutDimsList(ds), 68 * k + 4 * m, PutWord(ds[k][m]))
  {
    TwoParts(PutWords(ds[0]), PutDimsList(ds[1..]));
    if k == 0 {
      WordLiesAt(ds[0], m);
      LiesWithin(PutDimsList(ds), 0, PutWords(ds[0]), 4 * m, PutWord(ds[0][m]));
    } else {
      DimsWordLiesAt(ds[1..], k - 1, m);
      LiesWithin(PutDimsList(ds), 68, PutDimsList(ds[1..]), 68 * (k - 1) + 4 * m, PutWord(ds[k][m]));
    }
  }

  /** A vector is the number of its elements, 8 bytes, and then the elements. */
  lemma VectorLayout(ws: seq<Word>, k: nat)
    requires Fits(|ws|)
    ensures LiesAt(PutVector(ws), 0, PutSize(|ws|))
    ensures k < |ws| ==> LiesAt(PutVector(ws), 8 + 4 * k, PutWord(ws[k]))
  {
    TwoParts(PutSize(|ws|), PutWords(ws));
    if k < |ws| {
      WordLiesAt(ws, k);
      LiesWithin(PutVector(ws), 8, PutWords(ws), 4 * k, PutWord(ws[k]));
    }
  }

  /** The base: number of inputs, 17 words for each input's dimensions, batch size, data type, data format. */
  lemma BaseLayout(base: Base, k: nat, m: nat)
    requires Fits(|base.inputDims|)
    ensures var n, b := |base.inputDims|, PutBase(base);
      && LiesAt(b, 0, PutSize(n))
      && (k < n && m < 17 ==> LiesAt(b, 8 + 68 * k + 4 * m, PutWord(base.inputDims[k][m])))
      && LiesAt(b, 8 + 68 * n, PutSize(base.maxBatch))
      && LiesAt(b, 16 + 68 * n, PutWord(base.dataType))
      && LiesAt(b, 20 + 68 * n, PutWord(base.dataFormat))
  {
    var ds, n, b := base.inputDims, |base.inputDims|, PutBase(base);
    FourParts(PutDims(ds), PutSize(base.maxBatch), PutWord(base.dataType), PutWord(base.dataFormat));
    TwoParts(PutSize(n), PutDimsList(ds));
    LiesWithin(b, 0, PutDims(ds), 0, PutSize(n));
    if k < n && m < 17 {
      DimsWordLiesAt(ds, k, m);
      LiesWithin(PutDims(ds), 8, PutDimsList(ds), 68 * k + 4 * m, PutWord(ds[k][m]));
      LiesWithin(b, 0, PutDims(ds), 8 + 68 * k + 4 * m, PutWord(ds[k][m]));
    }
  }

  lemma FancyLayout(body: Body)
    requires body.FancyActivation?
    ensures var b := PutBody(body);
      LiesAt(b, 0, PutWord(body.kind)) && LiesAt(b, 4, PutWord(body.alpha)) && LiesAt(b, 8, PutWord(body.gamma))
  {
    FourParts(PutWord(body.kind), PutWord(body.alpha), PutWord(body.gamma), []);
    assert PutWord(body.gamma) + [] == PutWord(body.gamma);
  }

  lemma ResizeLayout(body: Body, k: nat)
    requires BodyFits(body) && body.ResizeNearest?
    ensures LiesAt(PutBody(body), 0, PutWord(body.ndims))
    ensures k < 8 ==> LiesAt(PutBody(body), 4 + 4 * k, PutWord(body.scale[k]))
  {
    TwoParts(PutWord(body.ndims), PutWords(body.scale));
    if k < 8 {
      WordLiesAt(body.scale, k);
      LiesWithin(PutBody(body), 4, PutWords(body.scale), 4 * k, PutWord(body.scale[k]));
    }
  }

  lemma SplitLayout(body: Body, k: nat)
    requires BodyFits(body) && body.Split?
    ensures var b, lengths := PutBody(body), body.outputLengths;
      && LiesAt(b, 0, PutWord(body.axis)) && LiesAt(b, 4, PutSize(|lengths|))
      && (k < |lengths| ==> LiesAt(b, 12 + 4 * k, PutWord(lengths[k])))
  {
    var lengths := body.outputLengths;
    TwoParts(PutWord(body.axis), PutVector(lengths));
    VectorLayout(lengths, k);
    LiesWithin(PutBody(body), 4, PutVector(lengths), 0, PutSize(|lengths|));
    if k < |lengths| {
      LiesWithin(PutBody(body), 4, PutVector(lengths), 8 + 4 * k, PutWord(lengths[k]));
    }
  }

  lemma InstanceLayout(body: Body, k: nat)
    requires BodyFits(body) && body.InstanceNormalization?
    ensures var b, s := PutBody(body), |body.hScale|;
      && LiesAt(b, 0, PutWord(body.epsilon)) && LiesAt(b, 4, PutWord(body.nchan)) && LiesAt(b, 8, PutSize(s))
      && (k < s ==> LiesAt(b, 16 + 4 * k, PutWord(body.hScale[k])))
      && LiesAt(b, 16 + 4 * s, PutSize(|body.hBias|))
      && (k < |body.hBias| ==> LiesAt(b, 24 + 4 * s + 4 * k, PutWord(body.hBias[k])))
  {
    var scale, bias := PutVector(body.hScale), PutVector(body.hBias);
    FourParts(PutWord(body.epsilon), PutWord(body.nchan), scale, bias);
    VectorWithin(PutBody(body), 8, body.hScale, k);
    VectorWithin(PutBody(body), 16 + 4 * |body.hScale|, body.hBias, k);
  }

  lemma VectorWithin(b: seq<Byte>, offset: nat, ws: seq<Word>, k: nat)
    requires Fits(|ws|) && LiesAt(b, offset, PutVector(ws))
    ensures LiesAt(b, offset, PutSize(|ws|))
    ensures k < |ws| ==> LiesAt(b, offset + 8 + 4 * k, PutWord(ws[k]))
  {
    VectorLayout(ws, k);
    LiesWithin(b, offset, PutVector(ws), 0, PutSize(|ws|));
    if k < |ws| {
      LiesWithin(b, offset, PutVector(ws), 8 + 4 * k, PutWord(ws[k]));
    }
  }

  /** The characters of the text and a zero. */
  ghost predicate IsText(tag: seq<Byte>, text: string) {
    |tag| == |text| + 1 && tag[|text|] == 0 && forall i :: 0 <= i < |text| ==> tag[i] == text[i] as int
  }

  /** The wrapped form: the magic text, the text of the type name, the base, the body. */
  lemma WrappedLayout(p: Plugin)
    requires Representable(p)
    ensures var b, magic, tag := Wrapped(p), PutString(Magic()), PutString(TypeName(KindOf(p.body)));
      && LiesAt(b, 0, magic) && LiesAt(b, 5, tag)
      && LiesAt(b, 5 + |tag|, PutBase(p.base)) && LiesAt(b, 5 + |tag| + BaseSize(p.base), PutBody(p.body))
      && IsText(magic, "Pv01")
      && (p.body.FancyActivation? ==> IsText(tag, "FancyActivation"))
      && (p.body.ResizeNearest? ==> IsText(tag, "ResizeNearest"))
      && (p.body.Split? ==> IsText(tag, "Split"))
      && (p.body.InstanceNormalization? ==> IsText(tag, "InstanceNormalization"))
  {
    FourParts(PutString(Magic()), PutString(TypeName(KindOf(p.body))), PutBase(p.base), PutBody(p.body));
  }

  // ---- createPlugin ----

  datatype Created =
    | Built(plugin: Plugin, rest: seq<Byte>)
    | External(data: seq<Byte>)
    | BadMagic
    | UnknownType
    | Truncated

  function KindNamed(name: seq<Byte>): Option<Kind> {
    if name == TypeName(Fancy) then Some(Fancy)
    else if name == TypeName(Resize) then Some(Resize)
    else if name == TypeName(SplitKind) then Some(SplitKind)
    else if name == TypeName(Instance) then Some(Instance)
    else None
  }

  lemma NamesAreDistinct(kind: Kind)
    ensures KindNamed(TypeName(kind)) == Some(kind)
    ensures Ascii("Concat") != TypeName(kind)
  {
  }

  /** The constructor of the dispatched plugin; the factory also knows TensorRT's own "Concat". */
  function Construct(name: seq<Byte>, b: seq<Byte>): Created {
    match KindNamed(name)
    case None => if name == Ascii("Concat") then External(b) else UnknownType
    case Some(kind) => match GetBase(b)
      case None => Truncated
      case Some((base, r)) => match GetBody(kind, r)
        case None => Truncated
        case Some((body, rest)) => Built(Plugin(base, body), rest)
  }

  function CreatePlugin(b: seq<Byte>): Created {
    match GetString(b)
    case None => Truncated
    case Some((magic, r1)) =>
      if magic != Magic() then BadMagic
      else match GetString(r1)
        case None => Truncated
        case Some((name, r2)) => Construct(name, r2)
  }

  lemma ConstructParses(p: Plugin, rest: seq<Byte>)
    requires Representable(p)
    ensures Construct(TypeName(KindOf(p.body)), PutPlugin(p) + rest) == Built(p, rest)
  {
    NamesAreDistinct(KindOf(p.body));
    assert PutPlugin(p) + rest == PutBase(p.base) + (PutBody(p.body) + rest);
    BaseParses(p.base, PutBody(p.body) + rest);
    BodyParses(p.body, rest);
  }

  lemma ConstructDetermines(name: seq<Byte>, b: seq<Byte>, p: Plugin, rest: seq<Byte>)
    requires Construct(name, b) == Built(p, rest)
    ensures Representable(p) && name == TypeName(KindOf(p.body)) && b == PutPlugin(p) + rest
  {
    KindOfName(name);
    var kind := KindNamed(name).value;
    PluginDetermines(kind, b, p, rest);
  }

  lemma KindOfName(name: seq<Byte>)
    ensures KindNamed(name).Some? ==> TypeName(KindNamed(name).value) == name
  {
  }

  lemma PluginDetermines(kind: Kind, b: seq<Byte>, p: Plugin, rest: seq<Byte>)
    requires GetBase(b).Some? && GetBody(kind, GetBase(b).value.1) == Some((p.body, rest))
    requires p.base == GetBase(b).value.0
    ensures Representable(p) && kind == KindOf(p.body) && b == PutPlugin(p) + rest
  {
    BaseDetermines(b);
    BodyDetermines(kind, GetBase(b).value.1);
    Associate(PutBase(p.base), PutBody(p.body), rest);
  }

  lemma Associate(a: seq<Byte>, b: seq<Byte>, c: seq<Byte>)
    ensures (a + b) + c == a + (b + c)
  {
  }

  lemma Regroup(a: seq<Byte>, b: seq<Byte>, c: seq<Byte>, rest: seq<Byte>)
    ensures (a + (b + c)) + rest == a + (b + (c + rest))
  {
  }

  lemma WrappedParses(p: Plugin, rest: seq<Byte>)
    requires Representable(p)
    ensures CreatePlugin(Wrapped(p) + rest) == Built(p, rest)
  {
    var name := TypeName(KindOf(p.body));
    var r2 := PutPlugin(p) + rest;
    var r1 := PutString(name) + r2;
    Regroup(PutString(Magic()), PutString(name), PutPlugin(p), rest);
    StringLaw(Wrapped(p) + rest, Magic(), r1);
    StringLaw(r1, name, r2);
    ConstructParses(p, rest);
  }

  lemma CreatedDetermines(b: seq<Byte>, p: Plugin, rest: seq<Byte>)
    requires CreatePlugin(b) == Built(p, rest)
    ensures Representable(p) && b == Wrapped(p) + rest
  {
    var (magic, r1) := GetString(b).value;
    var (name, r2) := GetString(r1).value;
    StringLaw(b, magic, r1);
    StringLaw(r1, name, r2);
    ConstructDetermines(name, r2, p, rest);
    Regroup(PutString(magic), PutString(name), PutPlugin(p), rest);
  }

  /**
   * createPlugin builds plugin p and leaves `rest` exactly when the buffer is the wrapped form of p followed by `rest`:
   * serialisation round-trips with any suffix, and nothing else is accepted as p.
   */
  lemma CreatePluginInvertsWrapped(b: seq<Byte>, p: Plugin, rest: seq<Byte>)
    ensures CreatePlugin(b) == Built(p, rest) <==> Representable(p) && b == Wrapped(p) + rest
  {
    if CreatePlugin(b) == Built(p, rest) {
      CreatedDetermines(b, p, rest);
    }
    if Representable(p) && b == Wrapped(p) + rest {
      WrappedParses(p, rest);
    }
  }

  /** Two plugins never share a serialised form, even with different bytes after it. */
  lemma WrappedIsUnambiguous(p: Plugin, q: Plugin, restP: seq<Byte>, restQ: seq<Byte>)
    requires Representable(p) && Representable(q) && Wrapped(p) + restP == Wrapped(q) + restQ
    ensures p == q && restP == restQ
  {
    CreatePluginInvertsWrapped(Wrapped(p) + restP, p, restP);
    CreatePluginInvertsWrapped(Wrapped(p) + restP, q, restQ);
  }

  // ---- Writing into the caller's buffer ----

  /** The buffer pointer that serialize_value advances. */
  class Writer {
    const out: array<Byte>
    var pos: nat

    constructor (out: array<Byte>)
      ensures this.out == out && pos == 0
    {
      this.out := out;
      pos := 0;
    }

    ghost predicate Valid()
      reads this
    {
      pos <= out.Length
    }

    /** memcpy and advance: appends the bytes and touches nothing after them. */
    method Copy(bytes: seq<Byte>)
      requires Valid() && pos + |bytes| <= out.Length
      modifies this`pos, out
      ensures Valid() && pos == old(pos) + |bytes|
      ensures out[..pos] == old(out[..pos]) + bytes && out[pos..] == old(out[..])[pos..]
    {
      var start := pos;
      for i := 0 to |bytes|
        invariant Valid() && pos == start
        invariant out[..start] == old(out[..pos]) && out[start..start + i] == bytes[..i]
        invariant out[start + i..] == old(out[..])[start + i..]
      {
        out[start + i] := bytes[i];
        assert out[start..start + i + 1] == out[start..start + i] + [bytes[i]];
      }
      pos := start + |bytes|;
      assert out[..pos] == out[..start] + out[start..start + |bytes|];
    }

    /** Plugin::serializeBase. */
    method SerializeBase(base: Base)
      requires Valid() && Fits(|base.inputDims|) && pos + BaseSize(base) <= out.Length
      modifies this`pos, out
      ensures Valid() && pos == old(pos) + BaseSize(base)
      ensures out[..pos] == old(out[..pos]) + PutBase(base)
    {
      Copy(PutDims(base.inputDims));
      Copy(PutSize(base.maxBatch));
      Copy(PutWord(base.dataType));
      Copy(PutWord(base.dataFormat));
    }

    /** serialize of the built-in plugins: base fields, then the plugin's own. */
    method SerializePlugin(p: Plugin)
      requires Valid() && Representable(p) && pos + PluginSize(p) <= out.Length
      modifies this`pos, out
      ensures Valid() && pos == old(pos) + PluginSize(p)
      ensures out[..pos] == old(out[..pos]) + PutPlugin(p)
    {
      ghost var before := out[..pos];
      SerializeBase(p.base);
      Copy(PutBody(p.body));
      Associate(before, PutBase(p.base), PutBody(p.body));
    }

    /** TypeSerializingPlugin::serialize into a buffer of the announced size: it fills the buffer exactly. */
    method SerializeWrapped(p: Plugin)
      requires Representable(p) && pos == 0 && out.Length == SerializationSize(p)
      modifies this`pos, out
      ensures pos == out.Length && out[..] == Wrapped(p)
    {
      var magic, name := PutString(Magic()), PutString(TypeName(KindOf(p.body)));
      SerializeTagged(magic, name, p);
      assert out[..] == out[..pos];
    }

    method SerializeTagged(magic: seq<Byte>, name: seq<Byte>, p: Plugin)
      requires Representable(p) && pos == 0 && out.Length == |magic| + |name| + PluginSize(p)
      modifies this`pos, out
      ensures pos == out.Length && out[..pos] == magic + (name + PutPlugin(p))
    {
      Copy(magic);
      Copy(name);
      assert out[..pos] == magic + name;
      SerializePlugin(p);
    }
  }
}
