/**
 The image writer for RAM (work/boot/imagewriter.cpp): every access goes through an aligned
 buffer that is encrypted on the way out and decrypted on the way in. Accesses are packets.
 */
module ImageWriter {
  import opened Words
  import opened Feistel
  import opened Tea
  import opened DiskSpec

  /** The cipher under a key, packet by packet. */
  function TeaCoder(key: Key): Coder
  {
    Coder((p: Packet) => Encrypted(p, key), (p: Packet) => Decrypted(p, key))
  }

  lemma TeaUndoes(key: Key)
    ensures Undoes(TeaCoder(key))
  {
    forall p: Packet
      ensures TeaCoder(key).enc(TeaCoder(key).dec(p)) == p
    {
      CryptInverse(p, key);
    }
  }

  /** Marks the packets for which the cipher is to be looked into. */
  ghost predicate Looked(p: Packet) { true }

  /** c codes packets under the key. The trigger keeps 32 rounds out of every other proof. */
  ghost predicate Codes(c: Coder, key: Key)
  {
    forall p: Packet {:trigger Looked(p)} :: c.enc(p) == Encrypted(p, key) && c.dec(p) == Decrypted(p, key)
  }

  method MemCopy(dst: array<Byte>, d: nat, src: array<Byte>, s: nat, len: nat)
    requires dst != src && d + len <= dst.Length && s + len <= src.Length
    modifies dst
    ensures dst[..] == old(dst[..d]) + src[s..s + len] + old(dst[d + len..])
  {
    for i := 0 to len
      invariant dst[..] == old(dst[..d]) + src[s..s + i] + old(dst[d + i..])
    {
      dst[d + i] := src[s + i];
    }
  }

  class Writer {
    const image: array<Byte>
    const key: Key
    ghost const coder: Coder

    ghost predicate Valid()
    {
      Codes(coder, key)
    }

    constructor (image: array<Byte>, key: Key)
      ensures Valid() && this.image == image && this.key == key && coder == TeaCoder(key)
    {
      this.image, this.key := image, key;
      coder := TeaCoder(key);
    }

    method EncryptPacket(tmp: array<Byte>)
      requires Valid() && tmp.Length == 64
      modifies tmp
      ensures tmp[..] == coder.enc(old(tmp[..]))
    {
      assert Looked(tmp[..]);
      assert tmp[..64] == tmp[..] && tmp[64..] == [];
      EncryptBlock(tmp, 64, key);
    }

    method DecryptPacket(tmp: array<Byte>)
      requires Valid() && tmp.Length == 64
      modifies tmp
      ensures tmp[..] == coder.dec(old(tmp[..]))
    {
      assert Looked(tmp[..]);
      assert tmp[..64] == tmp[..] && tmp[64..] == [];
      DecryptBlock(tmp, 64, key);
    }

    method ReadBytes(data: array<Byte>, from: nat)
      requires Valid() && data != image && from + 64 <= image.Length && data.Length == 64
      modifies data
      ensures data[..] == coder.enc(image[from..from + 64])
    {
      var tmp := new Byte[64](_ => 0);
      MemCopy(tmp, 0, image, from, 64);
      assert tmp[..] == image[from..from + 64];
      EncryptPacket(tmp);
      MemCopy(data, 0, tmp, 0, 64);
    }

    method WriteBytes(data: array<Byte>, from: nat)
      requires Valid() && data != image && from + 64 <= image.Length && data.Length == 64
      modifies image
      ensures image[..] == old(image[..from]) + coder.dec(data[..]) + old(image[from + 64..])
    {
      var tmp := new Byte[64](_ => 0);
      MemCopy(tmp, 0, data, 0, 64);
      assert tmp[..] == data[..];
      DecryptPacket(tmp);
      MemCopy(image, from, tmp, 0, 64);
    }
  }
}
