/**
 Packing the images of a render result into a response, with the guards that keep the size
 of a pixel buffer within a machine word and within the protocol's 32-bit size field.
 */
module PixelBuffers {
  import opened Basics

  datatype ImageKind = LdrRgba | HdrRgba | OtherKind(raw: int)

  /** `buffer` names the pixel memory, if there is any.  The dimensions are unsigned 32-bit numbers. */
  datatype Image = Image(kind: ImageKind, width: nat, height: nat, pitch: nat, buffer: Option<nat>)

  /** Bytes copied from the memory `source`, and the size field sent along. */
  datatype PixelData = PixelData(source: nat, length: nat, size: nat)

  datatype PackedImage = PackedImage(kind: ImageKind, width: nat, height: nat, pitch: nat, buffer: Option<PixelData>)

  const SIZE_MAX: nat := U64 - 1
  const UINT32_MAX: nat := U32 - 1

  function BytesPerPixel(kind: ImageKind): nat {
    match kind
    case LdrRgba => 4
    case HdrRgba => 16
    case OtherKind(_) => 4
  }

  /** Kinds the protocol does not know are sent as plain RGBA. */
  function SafeKind(kind: ImageKind, known: set<int>): ImageKind {
    if kind.OtherKind? && kind.raw !in known then LdrRgba else kind
  }

  lemma AboveQuotientIff(a: nat, m: nat, d: nat)
    requires d > 0
    ensures a > m / d <==> a * d > m
  {
    var q := m / d;
    assert q * d <= m < q * d + d;
    if a <= q {
      MulMonotone(a, q, d);
    } else {
      MulMonotone(q + 1, a, d);
      assert (q + 1) * d == q * d + d;
    }
  }

  lemma MulMonotone(a: nat, b: nat, c: nat)
    requires a <= b
    ensures a * c <= b * c
  {
  }

  /** The nested division rejects exactly the products that do not fit in a machine word. */
  lemma GuardIsExact(pitch: nat, height: nat, bytes: nat)
    requires height > 0 && bytes > 0
    ensures pitch > SIZE_MAX / height / bytes <==> pitch * height * bytes > SIZE_MAX
  {
    AboveQuotientIff(pitch, SIZE_MAX / height, bytes);
    AboveQuotientIff(pitch * bytes, SIZE_MAX, height);
    assert pitch * bytes * height == pitch * height * bytes;
  }

  /** The size of an image's pixels in bytes, as a number without bounds. */
  function ByteCount(img: Image): nat {
    img.pitch * img.height * BytesPerPixel(img.kind)
  }

  /** A pixel is four samples, of four bytes each in an HDR image and of one byte each in any other. */
  lemma PixelLayout(img: Image)
    ensures ByteCount(img) == img.pitch * img.height * if img.kind == HdrRgba then 4 * 4 else 4 * 1
    ensures ByteCount(img) <= UINT32_MAX <==> FitsTheField(img)
  {
  }

  /** The pixels take less than 4 GiB. */
  predicate FitsTheField(img: Image) {
    img.pitch * img.height <= if img.kind == HdrRgba then 0x0FFF_FFFF else 0x3FFF_FFFF
  }

  /** The number of bytes to copy; none if that does not fit in a machine word or in the size field. */
  method BufferSize(img: Image) returns (size: Option<nat>)
    requires img.height > 0
    ensures size.Some? <==> FitsTheField(img)
    ensures size.Some? ==> size.value == img.pitch * img.height * if img.kind == HdrRgba then 4 * 4 else 4 * 1
    ensures size == if ByteCount(img) <= UINT32_MAX then Some(ByteCount(img)) else None
  {
    var bytes := BytesPerPixel(img.kind);
    PixelLayout(img);
    GuardIsExact(img.pitch, img.height, bytes);
    if img.pitch > SIZE_MAX / img.height / bytes {
      return None;
    }
    MulMonotone(1, bytes, img.pitch * img.height);
    // Unsigned multiplication, which wraps at 2^64; here it does not.
    var bufSize := (img.pitch * img.height) % U64 * bytes % U64;
    assert bufSize == ByteCount(img);
    size := if bufSize > UINT32_MAX then None else Some(bufSize);
  }

  /** The buffer a packed image carries is the whole pixel memory, and its size field is its length. */
  ghost predicate PacksFaithfully(img: Image, packed: PackedImage, known: set<int>) {
    && packed.kind == (if img.kind.OtherKind? && img.kind.raw !in known then LdrRgba else img.kind)
    && packed.width == img.width && packed.height == img.height && packed.pitch == img.pitch
    && (packed.buffer.Some? <==>
          img.buffer.Some? && img.width > 0 && img.height > 0 && img.pitch > 0 && FitsTheField(img))
    && (packed.buffer.Some? ==>
          var bytes := img.pitch * img.height * if img.kind == HdrRgba then 4 * 4 else 4 * 1;
          packed.buffer.value == PixelData(img.buffer.value, bytes, bytes))
  }

  /** One entry for each image, in order. */
  method PackImages(images: seq<Image>, known: set<int>) returns (packed: seq<PackedImage>)
    ensures |packed| == |images|
    ensures forall i :: 0 <= i < |images| ==> PacksFaithfully(images[i], packed[i], known)
  {
    packed := [];
    for i := 0 to |images|
      invariant |packed| == i
      invariant forall j :: 0 <= j < i ==> PacksFaithfully(images[j], packed[j], known)
    {
      var img := images[i];
      packed := packed + [PackedImage(SafeKind(img.kind, known), img.width, img.height, img.pitch, None)];
      if img.buffer.Some? && img.width > 0 && img.height > 0 {
        if img.pitch == 0 {
          continue;
        }
        var size := BufferSize(img);
        if size.None? {
          continue;
        }
        packed := packed[i := packed[i].(buffer := Some(PixelData(img.buffer.value, size.value, size.value % U32)))];
      }
    }
  }

  /**
   Where in a `grabRenderResult` an exception is thrown, if anywhere: in the SDK's grab, while
   the image at `index` is packed, where up to 4 GiB are copied, or in the SDK's release, which
   may be done by then or not.  It is caught around the whole body.
   */
  datatype ThrowPoint = Nowhere | Grabbing | Packing(index: nat) | Releasing(done: bool)

  /** The SDK has handed out a render result. */
  predicate Takes(result: bool, throws: ThrowPoint) {
    result && throws != Grabbing
  }

  /** An exception is thrown while the call holds a render result. */
  predicate ThrowsHolding(result: bool, images: seq<Image>, throws: ThrowPoint) {
    result && (throws == Releasing(false) || (throws.Packing? && throws.index < |images|))
  }

  /** The call ends in an exception. */
  predicate Throws(result: bool, images: seq<Image>, throws: ThrowPoint) {
    throws == Grabbing || ThrowsHolding(result, images, throws) || (result && throws.Releasing?)
  }

  /**
   `result` and `images` are the SDK's answer; `taken` and `releases` count the render results
   received and given back.  They agree exactly if nothing is thrown in between.
   */
  method GrabRenderResult(result: bool, images: seq<Image>, known: set<int>, throws: ThrowPoint)
    returns (status: Status, answer: bool, packed: seq<PackedImage>, taken: nat, releases: nat)
    ensures status == if Throws(result, images, throws) then Internal else Ok
    ensures taken == if Takes(result, throws) then 1 else 0
    ensures releases <= taken && (releases == taken <==> !ThrowsHolding(result, images, throws))
    ensures throws == Nowhere ==> status == Ok && taken == releases == if result then 1 else 0
    ensures throws == Releasing(true) || (throws.Packing? && throws.index >= |images|) ==> taken == releases
    ensures status == Ok ==> answer == result && |packed| == if result then |images| else 0
    ensures status == Ok && result ==> forall i :: 0 <= i < |images| ==> PacksFaithfully(images[i], packed[i], known)
  {
    status, answer, packed, taken, releases := Ok, false, [], 0, 0;
    if throws == Grabbing {
      return Internal, false, [], 0, 0;
    }
    answer := result;
    if result {
      taken := 1;
    }
    if result && |images| > 0 {
      if throws.Packing? && throws.index < |images| {
        packed := PackImages(images[..throws.index], known);
        return Internal, answer, packed, taken, 0;
      }
      packed := PackImages(images, known);
    }
    if result {
      if throws == Releasing(false) {
        return Internal, answer, packed, taken, 0;
      }
      releases := 1;
      if throws.Releasing? {
        status := Internal;
      }
    }
  }
}
