/**
 The data-frame codec of data.go.

 The AEAD produces ciphertext ‖ tag; the wire carries
   nonce[0,12) ‖ tag[12,28) ‖ ciphertext[28,…)
 `DumpDataFrame` reorders into that layout and `LoadDataFrame` reassembles
 ciphertext ‖ tag before opening.
 */
module DataFrame {
  import opened Bytes
  import opened Outcomes
  import opened Crypto

  const DataFrameMsg: byte := 0xAA
  const DataFrameTagSize: nat := 16
  const DataFrameNonceSize: nat := 12
  const DataFrameNonceOffset: nat := 0
  const DataFrameTagOffset: nat := 12
  const DataFrameCipherTextOffset: nat := 12 + 16

  /** The byte shuffle of `loadDataFrame`: nonce from the front, and the
      ciphertext body with the tag moved back behind it. */
  function Reassemble(buffer: seq<byte>): (a: AesCrypted)
    requires |buffer| >= DataFrameCipherTextOffset
    ensures WellFormed(a)
    ensures a.nonce == buffer[DataFrameNonceOffset..DataFrameTagOffset]
    ensures a.ciphertext[..a.tagOffset] == buffer[DataFrameCipherTextOffset..]
    ensures a.ciphertext[a.tagOffset..] == buffer[DataFrameTagOffset..DataFrameCipherTextOffset]
  {
    var nonce := buffer[..DataFrameTagOffset];
    var tag := buffer[DataFrameTagOffset..DataFrameCipherTextOffset];
    var ciphertext := buffer[DataFrameCipherTextOffset..] + tag;
    AesCrypted(ciphertext, nonce, |ciphertext| - DataFrameTagSize)
  }

  /** The byte shuffle of `dumpDataFrame`: a buffer of |ciphertext| + 12
      bytes holding nonce, tag, then ciphertext body. */
  function Layout(a: AesCrypted): (frame: seq<byte>)
    requires WellFormed(a)
    ensures |frame| == |a.ciphertext| + DataFrameNonceSize
    ensures frame[DataFrameNonceOffset..DataFrameTagOffset] == a.nonce
    ensures frame[DataFrameTagOffset..DataFrameCipherTextOffset] == a.ciphertext[a.tagOffset..]
    ensures frame[DataFrameCipherTextOffset..] == a.ciphertext[..a.tagOffset]
  {
    var data := Zeros(|a.ciphertext| + DataFrameNonceSize);
    var data := CopyInto(data[..DataFrameNonceSize], a.nonce) + data[DataFrameNonceSize..];
    var data := data[..DataFrameTagOffset]
      + CopyInto(data[DataFrameTagOffset..DataFrameTagOffset + DataFrameTagSize], a.ciphertext[a.tagOffset..])
      + data[DataFrameTagOffset + DataFrameTagSize..];
    var data := data[..DataFrameCipherTextOffset] + CopyInto(data[DataFrameCipherTextOffset..], a.ciphertext[..a.tagOffset]);
    data
  }

  /** `loadDataFrame`: anything shorter than nonce plus tag is refused
      before the cipher is consulted. */
  function LoadDataFrame(s: Suite, c: Cipher, buffer: seq<byte>): (r: Result<seq<byte>>)
    ensures |buffer| < DataFrameCipherTextOffset ==> r == Err(BufferTooSmall)
    ensures |buffer| >= DataFrameCipherTextOffset && !(c.shared.Some? && AesKeyValid(c.shared.value)) ==> r == Err(InvalidCipherKey)
    ensures r.Ok? <==> |buffer| >= DataFrameCipherTextOffset && c.shared.Some? && AesKeyValid(c.shared.value)
                       && s.open(c.shared.value, buffer[..DataFrameTagOffset], buffer[DataFrameCipherTextOffset..] + buffer[DataFrameTagOffset..DataFrameCipherTextOffset]).Some?
    ensures r.Ok? ==> r.value == s.open(c.shared.value, buffer[..DataFrameTagOffset], buffer[DataFrameCipherTextOffset..] + buffer[DataFrameTagOffset..DataFrameCipherTextOffset]).value
  {
    if |buffer| < DataFrameCipherTextOffset then Err(BufferTooSmall)
    else Decrypt(s, c, Reassemble(buffer))
  }

  /** `dumpDataFrame`: an `Encrypt` error is passed on and no frame is
      produced; otherwise the sealed payload in wire order. `nonce` is the
      random source's outcome. */
  function DumpDataFrame(s: Suite, c: Cipher, nonce: Option<Bytes12>, buffer: seq<byte>): (r: Result<seq<byte>>)
    ensures Encrypt(s, c, nonce, buffer).Err? ==> r == Err(Encrypt(s, c, nonce, buffer).error)
    ensures r.Ok? ==> Encrypt(s, c, nonce, buffer).Ok?
    ensures r.Ok? <==> c.shared.Some? && AesKeyValid(c.shared.value) && nonce.Some?
    ensures r.Ok? ==> r.value == nonce.value + s.seal(c.shared.value, nonce.value, buffer).1 + s.seal(c.shared.value, nonce.value, buffer).0
  {
    match Encrypt(s, c, nonce, buffer)
    case Err(e) => Err(e)
    case Ok(a) =>
      var frame := Layout(a);
      assert frame == frame[..DataFrameTagOffset] + frame[DataFrameTagOffset..DataFrameCipherTextOffset] + frame[DataFrameCipherTextOffset..];
      Ok(frame)
  }

  /** The pure layout round trip: `load`'s reassembly of `dump`'s layout
      gives back exactly the nonce, ciphertext ‖ tag and tag offset that
      `Encrypt` produced. */
  lemma LayoutRoundTrip(a: AesCrypted)
    requires WellFormed(a)
    ensures Reassemble(Layout(a)) == a
  {
    var frame := Layout(a);
    var b := Reassemble(frame);
    assert b.ciphertext == a.ciphertext[..a.tagOffset] + a.ciphertext[a.tagOffset..];
    assert a.ciphertext[..a.tagOffset] + a.ciphertext[a.tagOffset..] == a.ciphertext;
  }

  /** A frame is 28 bytes longer than the packet it carries. */
  lemma DumpLength(s: Suite, c: Cipher, nonce: Option<Bytes12>, buffer: seq<byte>)
    requires SealLength(s)
    requires DumpDataFrame(s, c, nonce, buffer).Ok?
    ensures |DumpDataFrame(s, c, nonce, buffer).value| == |buffer| + DataFrameCipherTextOffset
  {
    var sealed := s.seal(c.shared.value, nonce.value, buffer);
    assert |sealed.0| == |buffer|;
  }

  /** A packet loaded from a frame is 28 bytes shorter than the frame. */
  lemma LoadLength(s: Suite, c: Cipher, buffer: seq<byte>)
    requires OpenLength(s)
    requires LoadDataFrame(s, c, buffer).Ok?
    ensures |LoadDataFrame(s, c, buffer).value| + DataFrameCipherTextOffset == |buffer|
  {
    var sealed := buffer[DataFrameCipherTextOffset..] + buffer[DataFrameTagOffset..DataFrameCipherTextOffset];
    assert |sealed| + DataFrameTagOffset == |buffer|;
  }

  /** Under the AEAD's own round trip, loading a dumped frame with the same
      cipher returns the packet. */
  lemma DumpLoadRoundTrip(s: Suite, c: Cipher, nonce: Option<Bytes12>, buffer: seq<byte>)
    requires SealOpens(s)
    requires DumpDataFrame(s, c, nonce, buffer).Ok?
    ensures LoadDataFrame(s, c, DumpDataFrame(s, c, nonce, buffer).value) == Ok(buffer)
  {
    var a := Encrypt(s, c, nonce, buffer).value;
    LayoutRoundTrip(a);
    EncryptDecryptRoundTrip(s, c, nonce, buffer);
  }
}
