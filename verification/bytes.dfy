/**
 Byte strings and the fixed-width arrays of the wire formats.

 Go's fixed arrays (`[4]byte`, `[8]byte`, `[64]byte`, ...) become subset
 types of `seq<byte>`; `encoding/binary.BigEndian` becomes an explicit
 base-256 conversion with its inverse.
 */
module Bytes {

  type byte = bv8

  type Bytes4 = s: seq<byte> | |s| == 4 witness [0, 0, 0, 0]
  type Bytes8 = s: seq<byte> | |s| == 8 witness seq(8, _ => 0)
  type Bytes12 = s: seq<byte> | |s| == 12 witness seq(12, _ => 0)
  type Bytes16 = s: seq<byte> | |s| == 16 witness seq(16, _ => 0)
  type Bytes64 = s: seq<byte> | |s| == 64 witness seq(64, _ => 0)
  type Bytes65 = s: seq<byte> | |s| == 65 witness seq(65, _ => 0)

  /** Go's `uint32`. */
  type Uint32 = x: int | 0 <= x < 0x1_0000_0000

  /** The zero value of a Go byte array of length `n`. */
  function Zeros(n: nat): (z: seq<byte>)
    ensures |z| == n
    ensures forall i :: 0 <= i < n ==> z[i] == 0
  {
    seq(n, _ => 0)
  }

  /** Go's `copy(dst, src)`: the first min(|dst|, |src|) bytes of `dst` are
      replaced by those of `src`; the length of `dst` never changes. */
  function CopyInto(dst: seq<byte>, src: seq<byte>): (r: seq<byte>)
    ensures |r| == |dst|
    ensures forall i :: 0 <= i < |r| ==> r[i] == (if i < |src| then src[i] else dst[i])
  {
    if |src| >= |dst| then src[..|dst|] else src + dst[|src|..]
  }

  /** `binary.BigEndian.Uint32`: the first byte is the most significant. */
  function BigEndianUint32(b: Bytes4): Uint32
  {
    (b[0] as int) * 0x100_0000 + (b[1] as int) * 0x1_0000 + (b[2] as int) * 0x100 + (b[3] as int)
  }

  /** `binary.BigEndian.PutUint32`, the inverse of `BigEndianUint32`. */
  function PutUint32(v: Uint32): Bytes4
  {
    var v1 := v / 0x100;
    var v2 := v1 / 0x100;
    [(v2 / 0x100) as bv8, (v2 % 0x100) as bv8, (v1 % 0x100) as bv8, (v % 0x100) as bv8]
  }

  /** Decoding a big-endian word and encoding it again gives back the bytes,
      so two different 4-byte strings never share a `uint32` key. */
  lemma BigEndianRoundTrip(b: Bytes4)
    ensures PutUint32(BigEndianUint32(b)) == b
  {
    var v := BigEndianUint32(b);
    var b0, b1, b2, b3 := b[0] as int, b[1] as int, b[2] as int, b[3] as int;
    var w2 := b0 * 0x100 + b1;
    var w1 := w2 * 0x100 + b2;
    assert v == w1 * 0x100 + b3;
    SplitLowByte(v, w1, b3);
    SplitLowByte(w1, w2, b2);
    SplitLowByte(w2, b0, b1);
  }

  /** Dividing by 256 separates the low byte from the rest. */
  lemma SplitLowByte(x: int, q: int, r: int)
    requires 0 <= r < 0x100 && x == q * 0x100 + r
    ensures x / 0x100 == q && x % 0x100 == r
  {
  }

  lemma BigEndianInjective(a: Bytes4, b: Bytes4)
    ensures BigEndianUint32(a) == BigEndianUint32(b) <==> a == b
  {
    if BigEndianUint32(a) == BigEndianUint32(b) {
      BigEndianRoundTrip(a);
      BigEndianRoundTrip(b);
    }
  }
}

/** Optional values and error-carrying results, the model of Go's
    `(value, error)` returns and nil pointers. */
module Outcomes {

  datatype Option<+T> = None | Some(value: T)

  /** The errors the core reports. Go builds them with `fmt.Errorf`; the
      model keeps one constructor per distinct message. `Panic` stands for a
      Go run-time panic (nil dereference, index out of range). */
  datatype Error =
    // handshake.go
    | SigningFailed | InvalidDataSize | InvalidSignature
    // data.go and the cipher it calls
    | BufferTooSmall | InvalidCipherKey | RandomSourceFailed | InvalidNonceSize | AuthenticationFailed
    | KeyGenerationFailed | KeyAgreementFailed
    // map.go
    | InvalidAddress | DuplicatedEntry | NotFound
    // server.go: routeMsg
    | RouteInvalidState | RouteInvalidMessage | RouteInvalidEncapsulated | RouteNoRouteToHost | RouteImpossibleDump
    // server.go: handleSTR
    | StartPrivateNotFound | StartPublicKeyNotFound | StartLoading | StartCreatingCipher | StartImpossiblePack
    // server.go: handleCHS
    | ClientPublicNotFound | ClientWrongState | ClientInvalidSession | ClientSharedSecret
    // socket.go
    | HandshakeTimeout | ReadFailed | WriteFailed | InvalidAddressValue
    // net.ResolveUDPAddr, whose own error is passed through
    | AddressResolutionFailed
    | Panic

  datatype Result<+T> = Ok(value: T) | Err(error: Error)
}
