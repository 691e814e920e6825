/** The PHP built-ins the attachments-directory check relies on: an abstract
    filesystem (`file_exists`, `is_dir`, `is_readable`, `is_writable`,
    `mkdir`, `umask`) and `octdec` applied to the decimal text of an int. */
module Filesystem {

  /** What a path names: a plain file, or a directory with its mode and
      whether this process may read and write it. */
  datatype Entry = File | Dir(mode: nat, readable: bool, writable: bool)

  /** `octdec(''.$n)` for `$n >= 0`: the decimal digits of `n` read as octal
      digits. Like octdec, digits 8 and 9 are skipped as invalid characters. */
  function OctDec(n: nat): nat
  {
    if n == 0 then 0
    else if n % 10 < 8 then OctDec(n / 10) * 8 + n % 10
    else OctDec(n / 10)
  }

  /** The mode that `octdec(''.$perm)` hands to mkdir: the sign is skipped by
      octdec as an invalid character too. */
  function PermissionMode(perm: int): nat
  {
    OctDec(if perm < 0 then -perm else perm)
  }

  /** The decimal int whose digits spell `mode` in octal (770 for 0770):
      how a caller is meant to write a mode in the configuration. */
  function DecOct(mode: nat): nat
  {
    if mode == 0 then 0 else DecOct(mode / 8) * 10 + mode % 8
  }

  /** Every decimal digit of `n` is an octal digit. */
  predicate OctalDigits(n: nat)
  {
    n == 0 || (n % 10 < 8 && OctalDigits(n / 10))
  }

  /** Writing a mode as decimal digits and decoding it gives the mode back. */
  lemma {:induction false} OctDecOfDecOct(mode: nat)
    ensures OctalDigits(DecOct(mode))
    ensures OctDec(DecOct(mode)) == mode
  {
    if mode != 0 {
      var high, low := DecOct(mode / 8), mode % 8;
      OctDecOfDecOct(mode / 8);
      assert DecOct(mode) == high * 10 + low;
      assert (high * 10 + low) % 10 == low && (high * 10 + low) / 10 == high;
      assert mode == (mode / 8) * 8 + low;
    }
  }

  /** Decoding an int made of octal digits and writing the mode back out
      gives the same int: on such inputs the decoding loses nothing. */
  lemma {:induction false} DecOctOfOctDec(n: nat)
    requires OctalDigits(n)
    ensures DecOct(OctDec(n)) == n
  {
    if n != 0 {
      var high, low := OctDec(n / 10), n % 10;
      DecOctOfOctDec(n / 10);
      assert OctDec(n) == high * 8 + low;
      assert high * 8 + low != 0;
      assert (high * 8 + low) % 8 == low && (high * 8 + low) / 8 == high;
    }
  }

  /** The configured default and the documented examples. */
  lemma PermissionExamples()
    ensures PermissionMode(770) == 0x1F8    // 0770
    ensures PermissionMode(775) == 0x1FD    // 0775
    ensures PermissionMode(370) == 0xF8     // 0370, not 370 rewritten in base 8
    ensures PermissionMode(-770) == 0x1F8
  {
    assert OctDec(7) == 7 && OctDec(77) == 63 && OctDec(770) == 0x1F8;
    assert OctDec(775) == 0x1FD;
    assert OctDec(3) == 3 && OctDec(37) == 31 && OctDec(370) == 0xF8;
  }

  /** `mode & ~mask`: the bits of `mode` that `mask` does not clear. */
  function Masked(mode: nat, mask: nat): nat
  {
    if mode == 0 then 0
    else Masked(mode / 2, mask / 2) * 2 + (if mode % 2 == 1 && mask % 2 == 0 then 1 else 0)
  }

  /** A zero umask clears nothing. */
  lemma {:induction false} MaskedByZero(mode: nat)
    ensures Masked(mode, 0) == mode
  {
    if mode != 0 {
      MaskedByZero(mode / 2);
    }
  }

  /** The owner-read bit (0400) of a mode. */
  predicate OwnerCanRead(mode: nat)
  {
    (mode / 0x100) % 2 == 1
  }

  /** The owner-write bit (0200) of a mode. */
  predicate OwnerCanWrite(mode: nat)
  {
    (mode / 0x80) % 2 == 1
  }

  /** The directory mkdir leaves behind. This process owns it, and the model
      assumes a non-root process without ACLs, for which `is_readable` and
      `is_writable` follow the owner bits. */
  function NewDir(mode: nat): Entry
  {
    Dir(mode, OwnerCanRead(mode), OwnerCanWrite(mode))
  }

  /** The process's view of the filesystem and its umask. */
  class FileSystem {
    var entries: map<string, Entry>
    var umask: nat
    /** The paths where mkdir fails (a parent not writable, a read-only
        mount, ...): the operating system decides, not the bundle. */
    const refused: set<string>

    constructor(entries: map<string, Entry>, umask: nat, refused: set<string>)
      ensures this.entries == entries && this.umask == umask && this.refused == refused
    {
      this.entries := entries;
      this.umask := umask;
      this.refused := refused;
    }

    /** `file_exists($path)`. */
    predicate FileExists(path: string)
      reads this
    {
      path in entries
    }

    /** `is_dir($path)`. */
    predicate IsDir(path: string)
      reads this
    {
      path in entries && entries[path].Dir?
    }

    /** `is_readable($path)`. */
    predicate IsReadable(path: string)
      reads this
    {
      path in entries && (entries[path].Dir? ==> entries[path].readable)
    }

    /** `is_writable($path)`. */
    predicate IsWritable(path: string)
      reads this
    {
      path in entries && (entries[path].Dir? ==> entries[path].writable)
    }

    /** `umask($mask)`: installs `mask` and returns the previous umask. */
    method Umask(mask: nat) returns (previous: nat)
      modifies this
      ensures previous == old(umask) && umask == mask
      ensures entries == old(entries)
    {
      previous := umask;
      umask := mask;
    }

    /** `mkdir($path, $mode, true)`: creates a directory whose mode is `mode`
        with the umask's bits cleared; false when the path exists or the
        system refuses it. */
    method Mkdir(path: string, mode: nat) returns (created: bool)
      modifies this
      ensures created <==> path !in old(entries) && path !in refused
      ensures entries == if created then old(entries)[path := NewDir(Masked(mode, umask))] else old(entries)
      ensures umask == old(umask)
    {
      created := path !in entries && path !in refused;
      if created {
        entries := entries[path := NewDir(Masked(mode, umask))];
      }
    }
  }
}
