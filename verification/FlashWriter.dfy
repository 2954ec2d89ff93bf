/**
 The image writer for flash (work/boot/flashwriter.cpp): the loops over sectors and halfwords.
 Erasing a sector and programming a halfword are the operations of the flash hardware.
 */
module FlashWriter {
  import opened Words
  import opened Feistel
  import opened DiskSpec
  import opened ImageWriter
  import opened FlashSpec

  /** The writer of work/boot/imagewriter.cpp lends its buffer cipher. */
  class FlashImage {
    const flash: array<Half>
    const isErased: array<bool>
    const cipher: Writer
    var locked: bool

    ghost predicate Valid()
    {
      && flash.Length == HALVES && isErased.Length == MAX_SECTORS && cipher.Valid()
      && flash as object != isErased && flash as object != cipher.image && isErased as object != cipher.image
    }

    ghost function View(): Flash
      reads this, flash, isErased
    {
      Flash(flash[..], isErased[..], locked)
    }

    /** Boot: no sector counts as erased. */
    constructor (flash: array<Half>, cipher: Writer)
      requires flash.Length == HALVES && cipher.Valid() && flash as object != cipher.image
      ensures Valid() && Booted(View()) && this.flash == flash && this.cipher == cipher
    {
      this.flash, this.cipher, locked := flash, cipher, true;
      isErased := new bool[MAX_SECTORS](_ => false);
      new;
      for n := 0 to MAX_SECTORS
        invariant forall k :: 0 <= k < n ==> !isErased[k]
        invariant locked
      {
        isErased[n] := false;
      }
    }

    /** The hardware erases sector k. */
    method EraseSector(k: nat)
      requires Valid() && 1 <= k < MAX_SECTORS
      modifies flash
      ensures forall a :: 0 <= a < HALVES ==> flash[a] == if SectorOf(a / 256) == k then ONES else old(flash[a])
    {
      forall a | 0 <= a < HALVES && SectorOf(a / 256) == k {
        flash[a] := ONES;
      }
    }

    method EraseBlocks(from: nat, len: nat)
      requires Valid()
      modifies flash, isErased, `locked
      ensures View() == Erased(old(View()), from, len)
    {
      locked := false;
      var end := len + from;
      var ers, k := 0, 1;
      ghost var f := old(View());
      while k < MAX_SECTORS
        invariant 1 <= k <= MAX_SECTORS && ers == STARTS[k] && !locked
        invariant isErased[0] == f.erased[0]
        invariant forall j :: 1 <= j < MAX_SECTORS ==> isErased[j] == (f.erased[j] || (j < k && STARTS[j] < end))
        invariant forall a :: 0 <= a < HALVES ==>
          flash[a] == if SectorOf(a / 256) < k && Fresh(f, SectorOf(a / 256), end) then ONES else f.mem[a]
      {
        if ers < end {
          if !isErased[k] {
            isErased[k] := true;
            EraseSector(k);
          }
        } else {
          StartsAscend(k);
          break;
        }
        StartsFromSizes(k);
        ers := ers + SIZES[k] * 2;
        k := k + 1;
      }
      assert flash[..] == ErasedMem(f, end);
      assert isErased[..] == ErasedFlags(f, end);
    }

    /** The hardware clears bits. */
    method ProgramHalfWord(a: nat, v: Half)
      requires Valid() && a < HALVES
      modifies flash
      ensures flash[..] == old(flash[..])[a := AndHalf(old(flash[a]), v)]
    {
      flash[a] := AndHalf(flash[a], v);
    }

    method WriteBytes(data: array<Byte>, from: nat)
      requires Valid() && data != cipher.image && data.Length == 64 && from % 64 == 0 && from + 64 <= 2 * HALVES
      requires data as object != flash
      modifies flash
      ensures flash[..] == if locked then old(flash[..])
        else Programmed(old(flash[..]), from / 2, HalvesOf(cipher.coder.dec(data[..])))
    {
      var tmp := new Byte[64](_ => 0);
      MemCopy(tmp, 0, data, 0, 64);
      assert tmp[..] == data[..];
      cipher.DecryptPacket(tmp);
      if !locked {
        ProgramAll(tmp, from / 2);
      }
    }

    /** The loop over the halfwords of a packet. */
    method ProgramAll(tmp: array<Byte>, at: nat)
      requires Valid() && tmp.Length == 64 && at + 32 <= HALVES && tmp as object != flash
      modifies flash
      ensures flash[..] == Programmed(old(flash[..]), at, HalvesOf(tmp[..]))
    {
      ghost var m, h := flash[..], HalvesOf(tmp[..]);
      for n := 0 to 32
        invariant flash[..] == Programmed(m, at, h[..n])
      {
        ProgramHalfWord(at + n, JoinHalf(tmp[2 * n], tmp[2 * n + 1]));
      }
      assert h[..32] == h;
    }
  }

  lemma StartsAscend(k: nat)
    requires k < MAX_SECTORS
    ensures forall j :: k <= j < MAX_SECTORS ==> STARTS[k] <= STARTS[j]
  {
  }
}
