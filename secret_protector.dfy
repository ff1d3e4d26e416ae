/**
 * The byte layout of a protected secret: a version byte (1), the length of
 * the cipher's IV, the IV, then the ciphertext with its authentication tag.
 * The cipher itself is outside the model: `Protect` is given the IV and
 * ciphertext the cipher produced, and `Unprotect` returns the pair it would
 * hand back to the cipher.
 */
module SecretProtector {
  import opened Wrappers
  import opened Ints

  /** The version byte written and accepted. */
  const Version: Byte := 1

  /** The exceptions the framing throws. */
  datatype Error = IvTooLong | InvalidPayload | UnsupportedVersion

  /** The payload for an IV and a ciphertext; the IV length must fit the length byte. */
  function Frame(iv: seq<Byte>, ct: seq<Byte>): (d: seq<Byte>)
    requires |iv| <= 255
    ensures |d| == 2 + |iv| + |ct|
    ensures d[0] == Version && d[1] as int == |iv| && d[2..2 + |iv|] == iv && d[2 + |iv|..] == ct
  {
    [Version, |iv| as Byte] + iv + ct
  }

  /** The header checks and the split of `Unprotect`. */
  function Unframe(d: seq<Byte>): (r: Result<(seq<Byte>, seq<Byte>), Error>)
    ensures |d| < 2 ==> r == Failure(InvalidPayload)
    ensures |d| >= 2 && d[0] != Version ==> r == Failure(UnsupportedVersion)
    ensures |d| >= 2 && d[0] == Version && |d| < 2 + d[1] as int ==> r == Failure(InvalidPayload)
    ensures r.Success? ==> |d| >= 2 + d[1] as int
                           && r.value.0 == d[2..2 + d[1] as int] && r.value.1 == d[2 + d[1] as int..]
  {
    if |d| < 2 then Failure(InvalidPayload)
    else if d[0] != Version then Failure(UnsupportedVersion)
    else
      var n := d[1] as int;
      if |d| < 2 + n then Failure(InvalidPayload)
      else Success((d[2..2 + n], d[2 + n..]))
  }

  /** Unframing a frame gives back its IV and ciphertext. */
  lemma UnframeFrame(iv: seq<Byte>, ct: seq<Byte>)
    requires |iv| <= 255
    ensures Unframe(Frame(iv, ct)) == Success((iv, ct))
  {
  }

  /** Every payload `Unprotect` accepts is the frame of what it splits it into. */
  lemma FrameUnframe(d: seq<Byte>)
    requires Unframe(d).Success?
    ensures |Unframe(d).value.0| <= 255
    ensures Frame(Unframe(d).value.0, Unframe(d).value.1) == d
  {
    var n := d[1] as int;
    assert d == [d[0], d[1]] + d[2..2 + n] + d[2 + n..];
  }

  /** `Buffer.BlockCopy` between two distinct arrays. */
  method BlockCopy(src: array<Byte>, srcOffset: nat, dst: array<Byte>, dstOffset: nat, count: nat)
    requires src != dst
    requires srcOffset + count <= src.Length && dstOffset + count <= dst.Length
    modifies dst
    ensures dst[..] == old(dst[..dstOffset]) + src[srcOffset..srcOffset + count] + old(dst[dstOffset + count..])
  {
    var i := 0;
    while i < count
      invariant 0 <= i <= count
      invariant dst[..] == old(dst[..dstOffset]) + src[srcOffset..srcOffset + i] + old(dst[dstOffset + i..])
    {
      dst[dstOffset + i] := src[srcOffset + i];
      i := i + 1;
      assert src[srcOffset..srcOffset + i] == src[srcOffset..srcOffset + i - 1] + [src[srcOffset + i - 1]];
    }
  }

  /** `Protect` after the cipher has run: the payload for its IV and ciphertext. */
  method Protect(iv: array<Byte>, ct: array<Byte>) returns (r: Result<array<Byte>, Error>)
    ensures iv.Length > 255 ==> r == Failure(IvTooLong)
    ensures iv.Length <= 255 ==> r.Success? && fresh(r.value) && r.value[..] == Frame(iv[..], ct[..])
  {
    if iv.Length > 255 {
      return Failure(IvTooLong);
    }
    var result := new Byte[2 + iv.Length + ct.Length];
    result[0] := 1;
    result[1] := iv.Length as Byte;
    BlockCopy(iv, 0, result, 2, iv.Length);
    BlockCopy(ct, 0, result, 2 + iv.Length, ct.Length);
    assert result[..] == [Version, iv.Length as Byte] + iv[..] + ct[..] by {
      assert result[..2] == [Version, iv.Length as Byte];
      assert result[2..2 + iv.Length] == iv[..];
      assert result[2 + iv.Length..] == ct[..];
      assert result[..] == result[..2] + result[2..2 + iv.Length] + result[2 + iv.Length..];
    }
    return Success(result);
  }

  /** `Unprotect` before the cipher runs: check the header and copy out the IV and ciphertext. */
  method Unprotect(data: array<Byte>) returns (r: Result<(array<Byte>, array<Byte>), Error>)
    ensures Unframe(data[..]).Failure? ==> r.Failure? && r.error == Unframe(data[..]).error
    ensures Unframe(data[..]).Success? ==>
              r.Success? && fresh(r.value.0) && fresh(r.value.1)
              && (r.value.0[..], r.value.1[..]) == Unframe(data[..]).value
  {
    if data.Length < 2 {
      return Failure(InvalidPayload);
    }
    var version := data[0];
    if version != 1 {
      return Failure(UnsupportedVersion);
    }
    var ivLen := data[1] as int;
    if data.Length < 2 + ivLen {
      return Failure(InvalidPayload);
    }
    var iv := new Byte[ivLen];
    BlockCopy(data, 2, iv, 0, ivLen);
    var ctLen := data.Length - (2 + ivLen);
    var ct := new Byte[ctLen];
    BlockCopy(data, 2 + ivLen, ct, 0, ctLen);
    assert iv[..] == data[2..2 + ivLen];
    assert ct[..] == data[2 + ivLen..];
    return Success((iv, ct));
  }
}
