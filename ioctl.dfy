/** The ioctl request-code codec of internal/ioctl/ioctl.go: the layout of the Linux
    `_IOC` macro (include/uapi/asm-generic/ioctl.h) on a 64-bit Go `uint`. */
module Ioctl {

  /** Go's `uint` on linux/amd64. */
  type Word = bv64

  const IocNone: Word := 0
  const IocWrite: Word := 1
  const IocRead: Word := 2

  const DirNone: Word := IocNone
  const DirWrite: Word := IocWrite
  const DirRead: Word := IocRead
  const DirReadWrite: Word := IocRead | IocWrite

  const NRBits: Word := 8
  const TypeBits: Word := 8
  const SizeBits: Word := 14
  const DirBits: Word := 2

  const NRShift: Word := 0
  const TypeShift: Word := NRShift + NRBits
  const SizeShift: Word := TypeShift + TypeBits
  const DirShift: Word := SizeShift + SizeBits

  /** `ioctl.Size(v any)` measures the `any` parameter itself, an interface header,
      so every request builder that calls it gets this same value whatever struct it
      names (16 bytes on a 64-bit platform). */
  const AnySize: Word := 16

  /** IOC: the fields are shifted into place and OR-ed together, without masking. */
  function IOC(dir: Word, typ: Word, nr: Word, size: Word): Word
  {
    (dir << DirShift) | (typ << TypeShift) | (nr << NRShift) | (size << SizeShift)
  }

  // Field extractors, the `_IOC_DIR`/`_IOC_TYPE`/`_IOC_NR`/`_IOC_SIZE` of the kernel header.
  function FieldNr(req: Word): Word { (req >> NRShift) & 0xff }
  function FieldType(req: Word): Word { (req >> TypeShift) & 0xff }
  function FieldSize(req: Word): Word { (req >> SizeShift) & 0x3fff }
  function FieldDir(req: Word): Word { (req >> DirShift) & 0x3 }

  /** The request's fields, each within its width. */
  predicate Fits(dir: Word, typ: Word, nr: Word, size: Word)
  {
    dir < 4 && typ < 0x100 && nr < 0x100 && size < 0x4000
  }

  /** Every in-range field comes back out of the request code unchanged, and nothing
      is set above bit 31. */
  lemma IOCFields(dir: Word, typ: Word, nr: Word, size: Word)
    requires Fits(dir, typ, nr, size)
    ensures FieldDir(IOC(dir, typ, nr, size)) == dir
    ensures FieldType(IOC(dir, typ, nr, size)) == typ
    ensures FieldNr(IOC(dir, typ, nr, size)) == nr
    ensures FieldSize(IOC(dir, typ, nr, size)) == size
    ensures IOC(dir, typ, nr, size) < 0x1_0000_0000
  {
  }

  /** The other direction of the round trip: a request code below 2^32 is rebuilt
      exactly from the four fields it carries. */
  lemma FieldsIOC(req: Word)
    requires req < 0x1_0000_0000
    ensures IOC(FieldDir(req), FieldType(req), FieldNr(req), FieldSize(req)) == req
  {
  }

  /** For in-range fields the OR is a sum: nr occupies bits 0-7, type bits 8-15,
      size bits 16-29 and dir bits 30-31. */
  lemma IOCAsSum(dir: Word, typ: Word, nr: Word, size: Word)
    requires Fits(dir, typ, nr, size)
    ensures IOC(dir, typ, nr, size) == dir * 0x4000_0000 + size * 0x1_0000 + typ * 0x100 + nr
  {
  }

  /** Without masking, an oversized size spills into the direction bits: a size of
      0x4000 turns a no-data request into a write request. */
  lemma OversizedSizeSpills(typ: Word, nr: Word)
    requires typ < 0x100 && nr < 0x100
    ensures FieldDir(IOC(DirNone, typ, nr, 0x4000)) == DirWrite
    ensures FieldSize(IOC(DirNone, typ, nr, 0x4000)) == 0
  {
  }

  function IO(typ: Word, nr: Word): (r: Word)
    ensures typ < 0x100 && nr < 0x100 ==>
      FieldDir(r) == DirNone && FieldSize(r) == 0 && FieldType(r) == typ && FieldNr(r) == nr
  {
    IOC(IocNone, typ, nr, 0)
  }

  function IOR(typ: Word, nr: Word, size: Word): (r: Word)
    ensures Fits(DirRead, typ, nr, size) ==>
      FieldDir(r) == DirRead && FieldSize(r) == size && FieldType(r) == typ && FieldNr(r) == nr
  {
    IOC(IocRead, typ, nr, size)
  }

  function IOW(typ: Word, nr: Word, size: Word): (r: Word)
    ensures Fits(DirWrite, typ, nr, size) ==>
      FieldDir(r) == DirWrite && FieldSize(r) == size && FieldType(r) == typ && FieldNr(r) == nr
  {
    IOC(IocWrite, typ, nr, size)
  }

  function IOWR(typ: Word, nr: Word, size: Word): (r: Word)
    ensures Fits(DirReadWrite, typ, nr, size) ==>
      FieldDir(r) == DirReadWrite && FieldSize(r) == size && FieldType(r) == typ && FieldNr(r) == nr
  {
    IOC(IocRead | IocWrite, typ, nr, size)
  }

  /** The direction constants: read and write are single bits and read-write is both. */
  lemma DirectionBits()
    ensures DirNone == 0 && DirWrite == 1 && DirRead == 2 && DirReadWrite == 3
    ensures DirRead & DirWrite == 0
  {
  }

  /** A read-write request is the union of the read request and the write request,
      for every argument. */
  lemma IOWRIsUnion(typ: Word, nr: Word, size: Word)
    ensures IOWR(typ, nr, size) == IOR(typ, nr, size) | IOW(typ, nr, size)
  {
  }
}
