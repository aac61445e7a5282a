/**
 * The secret store of the kernel module (lab-spectre/module-src/labspectrekm.c,
 * lines 25-32): three 64-byte secrets initialised from string literals and two
 * leak limits. Every index the leak primitives compute from a secret byte is
 * in bounds only because of what these initialisers contain.
 */
module KernelSecrets {
  import opened LabSpectreIpc

  /** A C `char` on the x86-64 Linux targets of the lab: a signed 8-bit integer. */
  type Char8 = c: int | -128 <= c < 128

  /** Names the three secret buffers. */
  datatype SecretId = Secret1 | Secret2 | Secret3

  /** Every character of `text` is a 7-bit ASCII character. */
  predicate IsAscii(text: string)
  {
    forall c | c in text :: c as int < 128
  }

  /** Byte `k` of the literal `text`, or the zero that pads it. */
  function PaddedByte(text: string, k: nat): Char8
    requires IsAscii(text)
  {
    if k < |text| then (assert text[k] in text; text[k] as int) else 0
  }

  /**
   * The contents of a C array `char buf[capacity] = "text";`: the characters of
   * the literal, then zero bytes up to the capacity.
   */
  function ZeroPadded(text: string, capacity: nat): (bytes: seq<Char8>)
    requires IsAscii(text) && |text| <= capacity
    ensures |bytes| == capacity
    ensures forall k :: 0 <= k < |text| ==> bytes[k] == text[k] as int
    ensures forall k :: |text| <= k < capacity ==> bytes[k] == 0
  {
    seq(capacity, k requires 0 <= k < capacity => PaddedByte(text, k))
  }

  const KernelSecret1: seq<Char8> := ZeroPadded("UNC{sp3ctr3_i5_c00l}", SecretMaxLen)
  const KernelSecret2: seq<Char8> := ZeroPadded("UNC{g0_h33ls}", SecretMaxLen)
  const KernelSecret3: seq<Char8> := ZeroPadded("UNC{j4m35_B0nD}", SecretMaxLen)

  /** Initial values of `secret_leak_limit_part2` and `secret_leak_limit_part3`. */
  const InitialLeakLimitPart2: u64 := 4
  const InitialLeakLimitPart3: u64 := 4

  function Secret(id: SecretId): seq<Char8>
  {
    match id
    case Secret1 => KernelSecret1
    case Secret2 => KernelSecret2
    case Secret3 => KernelSecret3
  }

  /** Every byte of every secret lies in 0..127, so no secret byte is negative as a signed char. */
  lemma SecretBytesAreAscii(id: SecretId, offset: nat)
    requires offset < SecretMaxLen
    ensures |Secret(id)| == SecretMaxLen
    ensures 0 <= Secret(id)[offset] < 128
  {
  }

  /** The test `secret_data < SHD_SPECTRE_LAB_SHARED_MEMORY_NUM_PAGES` of the first primitive. */
  predicate PassesPageGuard(c: Char8)
  {
    c < SharedMemoryNumPages
  }

  /** `c` selects one of the 256 mapped pages. */
  predicate IsPageIndex(c: int)
  {
    0 <= c < SharedMemoryNumPages
  }

  /**
   * On a signed-char target the guard `secret_data < 256` cannot fail: it is
   * true of every `char`.
   */
  lemma SignedCharGuardAlwaysHolds(c: Char8)
    ensures PassesPageGuard(c)
  {
  }

  /**
   * The guard alone does not make `secret_data` a valid page index: a negative
   * `char` passes it. Bounds safety therefore rests on the initialisers.
   */
  lemma SignedCharGuardAdmitsNegativeIndex()
    ensures exists c: Char8 :: PassesPageGuard(c) && !IsPageIndex(c)
  {
    var c: Char8 := -1;
    assert PassesPageGuard(c) && !IsPageIndex(c);
  }
}
