/**
 * The procfs handlers of the Spectre lab kernel module
 * (lab-spectre/module-src/labspectrekm.c). A write carries one command packet;
 * the handler validates it, pins and maps the caller's 256-page shared region,
 * runs the leak primitive the packet selects, and tears the region down again.
 *
 * The kernel services the handler calls are inputs (a KernelEnv). What the
 * handler does to kernel resources and which memory it loads is recorded in a
 * ghost trace of events, which the handler is proved to produce exactly as
 * WriteTrace below describes.
 */
module LabSpectreKm {
  import opened Wrappers
  import opened LabSpectreIpc
  import opened KernelSecrets
  import opened EventTrace

  /** What pin_user_pages_fast returns when asked for 256 pages: a negative error code or at most 256. */
  type PinResult = r: int | r <= SharedMemoryNumPages

  /** A kernel virtual address returned by kmap: NULL, or the alias of a pinned page. */
  datatype KPtr = Null | Alias(page: Page)

  /**
   * The answers of the kernel services the handler relies on, for one write.
   *  - copied: the packet copy_from_user delivered, None when it failed to copy it whole;
   *  - accessOk: access_ok(address, size);
   *  - pinResult: what pin_user_pages_fast returns;
   *  - kmapFailsAt: the first page index whose kmap returns NULL, if any.
   */
  datatype KernelEnv = KernelEnv(
    copied: Option<Command>,
    accessOk: (u64, nat) -> bool,
    pinResult: PinResult,
    kmapFailsAt: Option<nat>)

  /** The packet was copied, its region passed access_ok and its secret offset is below 64. */
  predicate Validated(env: KernelEnv)
  {
    && env.copied.Some?
    && env.accessOk(env.copied.value.arg1, SharedMemorySize)
    && env.copied.value.arg2 < SecretMaxLen
  }

  /** Mapping one of the 256 pinned pages fails. */
  predicate KmapFails(env: KernelEnv)
  {
    env.kmapFailsAt.Some? && env.kmapFailsAt.value < SharedMemoryNumPages
  }

  /** kmap(page) when it is the mapping of page `index`. */
  function Kmap(env: KernelEnv, index: nat, page: Page): (p: KPtr)
    ensures p == Null <==> env.kmapFailsAt == Some(index)
    ensures p.Alias? ==> p.page == page
  {
    if env.kmapFailsAt == Some(index) then Null else Alias(page)
  }

  /** The conversion of the `size_t` byte count to the handler's `ssize_t` result. */
  function AsSsize(n: u64): (r: int)
    ensures -0x8000_0000_0000_0000 <= r < 0x8000_0000_0000_0000
    ensures (r - n) % U64Modulus == 0
    ensures n < 0x8000_0000_0000_0000 ==> r == n
  {
    if n < 0x8000_0000_0000_0000 then n else n - U64Modulus
  }

  /** `long_latency` of the third primitive: arg2 multiplied by 1 four times and then by 0, in 64-bit arithmetic. */
  function LongLatency(arg2: u64): (r: u64)
    ensures r == 0
  {
    (arg2 * 1 * 1 * 1 * 1 * 0) % U64Modulus
  }

  /**
   * The page index the third primitive loads from: the signed secret byte plus
   * `long_latency`, converted to a 64-bit unsigned value. It is the secret
   * byte itself, and a valid page index.
   */
  function Part3PageIndex(arg2: u64): (r: int)
    requires arg2 < SecretMaxLen
    ensures r == KernelSecret3[arg2]
    ensures 0 <= r < SharedMemoryNumPages
  {
    SecretBytesAreAscii(Secret3, arg2);
    (KernelSecret3[arg2] + LongLatency(arg2)) % U64Modulus
  }

  /**
   * The loads of the leak primitive that `cmd.kind` selects, once every page is
   * mapped. An unknown kind runs no primitive.
   */
  function PrimitiveTrace(cmd: Command, limit2: u64, limit3: u64): seq<Event>
    requires cmd.arg2 < SecretMaxLen
  {
    SecretBytesAreAscii(Secret1, cmd.arg2);
    SecretBytesAreAscii(Secret2, cmd.arg2);
    SecretBytesAreAscii(Secret3, cmd.arg2);
    if cmd.kind == CommandPart1 then
      [ReadSecret(Secret1, cmd.arg2)]
      + (if KernelSecret1[cmd.arg2] < SharedMemoryNumPages
         then [Deref(UserPage(cmd.arg1, KernelSecret1[cmd.arg2]))] else [])
    else if cmd.kind == CommandPart2 then
      [ReadSecret(Secret2, cmd.arg2)]
      + (if cmd.arg2 < limit2 then [Deref(UserPage(cmd.arg1, KernelSecret2[cmd.arg2]))] else [])
    else if cmd.kind == CommandPart3 then
      if cmd.arg2 < limit3
      then [ReadSecret(Secret3, cmd.arg2), Deref(UserPage(cmd.arg1, KernelSecret3[cmd.arg2]))]
      else []
    else
      []
  }

  /** The events of a write whose kmap fails at page k, once all n pages are pinned. */
  function UnwoundTrace(n: nat, k: nat): seq<Event>
  {
    [Pin(n)] + MapsUp(k) + UnmapsDown(k, 0)
  }

  /** The events of a write that maps all n pages and runs the primitive whose loads are p. */
  function CompletedTrace(n: nat, p: seq<Event>): seq<Event>
  {
    [Pin(n)] + MapsUp(n) + p + UnmapsDown(n, 0) + [Unpin(n)]
  }

  /**
   * The events of one write, path by path: a rejected packet does nothing; a
   * pin shortfall releases the pins it got; a kmap failure at page k unmaps
   * pages k-1 down to 0 and returns; otherwise all 256 pages are mapped, the
   * primitive runs, the pages are unmapped 255 down to 0 and then unpinned.
   */
  function WriteTrace(env: KernelEnv, limit2: u64, limit3: u64): seq<Event>
  {
    if !Validated(env) then
      []
    else if env.pinResult != SharedMemoryNumPages then
      if env.pinResult > 0 then [Pin(env.pinResult), Unpin(env.pinResult)] else [Pin(env.pinResult)]
    else if KmapFails(env) then
      UnwoundTrace(SharedMemoryNumPages, env.kmapFailsAt.value)
    else
      CompletedTrace(SharedMemoryNumPages, PrimitiveTrace(env.copied.value, limit2, limit3))
  }

  /**
   * The module's global state: the two leak limits. The secrets never change
   * and are the constants of KernelSecrets.
   */
  class LabModule {
    var secretLeakLimitPart2: u64
    var secretLeakLimitPart3: u64

    /** The state after module load: both limits at their initialisers. */
    constructor ()
      ensures secretLeakLimitPart2 == InitialLeakLimitPart2
      ensures secretLeakLimitPart3 == InitialLeakLimitPart3
    {
      secretLeakLimitPart2 := InitialLeakLimitPart2;
      secretLeakLimitPart3 := InitialLeakLimitPart3;
    }

    /** spectre_lab_victim_read: reading the file yields nothing. */
    method VictimRead(numBytes: u64) returns (ret: int)
      ensures ret == 0
    {
      ret := 0;
    }

    /**
     * The decrementing loop that kunmaps pages[count-1] down to pages[0], used
     * both when a kmap fails and on teardown.
     */
    static method UnmapPages(count: nat) returns (ghost events: seq<Event>)
      ensures events == UnmapsDown(count, 0)
    {
      events := [];
      var j: int := count - 1;
      while j >= 0
        invariant -1 <= j < count
        invariant events == UnmapsDown(count, j + 1)
      {
        events := events + [Unmap(j)];
        j := j - 1;
      }
    }

    /**
     * The mapping loop of the write handler: kmap each pinned page in turn. When
     * kmap fails at page i, the pages mapped so far are unmapped in reverse
     * order, i-1 down to 0, and the handler gives up.
     */
    static method MapRegion(env: KernelEnv, cmd: Command, pages: array<Option<Page>>)
      returns (region: array<KPtr>, mapped: bool, ghost mapEvents: seq<Event>, ghost unwindEvents: seq<Event>)
      requires pages.Length == SharedMemoryNumPages
      requires forall k :: 0 <= k < SharedMemoryNumPages ==> pages[k] == Some(UserPage(cmd.arg1, k))
      ensures fresh(region) && region.Length == SharedMemoryNumPages
      ensures mapped <==> !KmapFails(env)
      ensures mapped ==> mapEvents == MapsUp(SharedMemoryNumPages) && unwindEvents == []
      ensures mapped ==> forall k :: 0 <= k < SharedMemoryNumPages ==> region[k] == Alias(UserPage(cmd.arg1, k))
      ensures !mapped ==> mapEvents == MapsUp(env.kmapFailsAt.value)
      ensures !mapped ==> unwindEvents == UnmapsDown(env.kmapFailsAt.value, 0)
    {
      region := new KPtr[SharedMemoryNumPages];
      mapEvents, unwindEvents := [], [];
      var i := 0;
      while i < SharedMemoryNumPages
        invariant 0 <= i <= SharedMemoryNumPages
        invariant forall k :: 0 <= k < i ==> region[k] == Alias(UserPage(cmd.arg1, k))
        invariant env.kmapFailsAt.Some? ==> i <= env.kmapFailsAt.value
        invariant mapEvents == MapsUp(i)
      {
        region[i] := Kmap(env, i, pages[i].value);
        if region[i] == Null {
          unwindEvents := UnmapPages(i);
          return region, false, mapEvents, unwindEvents;
        }
        mapEvents := mapEvents + [Map(i)];
        i := i + 1;
      }
      mapped := true;
    }

    /**
     * The switch on the command kind: the loads of the selected leak
     * primitive, through the aliases in `region`. No case matches an unknown
     * kind.
     */
    method RunPrimitive(cmd: Command, region: array<KPtr>) returns (ghost events: seq<Event>)
      requires cmd.arg2 < SecretMaxLen
      requires region.Length == SharedMemoryNumPages
      requires forall k :: 0 <= k < SharedMemoryNumPages ==> region[k] == Alias(UserPage(cmd.arg1, k))
      ensures events == PrimitiveTrace(cmd, secretLeakLimitPart2, secretLeakLimitPart3)
    {
      events := [];
      if cmd.kind == CommandPart1 {
        var secretData := KernelSecret1[cmd.arg2];
        events := events + [ReadSecret(Secret1, cmd.arg2)];
        if secretData < SharedMemoryNumPages {
          SecretBytesAreAscii(Secret1, cmd.arg2);
          var tmp := region[secretData];
          events := events + [Deref(tmp.page)];
        }
      } else if cmd.kind == CommandPart2 {
        var secretData := KernelSecret2[cmd.arg2];
        events := events + [ReadSecret(Secret2, cmd.arg2)];
        // the alias is selected before the bounds check: an array index either way
        SecretBytesAreAscii(Secret2, cmd.arg2);
        var addrToLeak := region[secretData];
        if cmd.arg2 < secretLeakLimitPart2 {
          events := events + [Deref(addrToLeak.page)];
        }
      } else if cmd.kind == CommandPart3 {
        if cmd.arg2 < secretLeakLimitPart3 {
          events := events + [ReadSecret(Secret3, cmd.arg2)];
          var tmp := region[Part3PageIndex(cmd.arg2)];
          events := events + [Deref(tmp.page)];
        }
      }
    }

    /**
     * spectre_lab_victim_write. Returns 0 when the packet cannot be copied and
     * the byte count otherwise, whatever happened; the ghost `trace` is what
     * the handler did to kernel resources and which memory it loaded.
     */
    method VictimWrite(env: KernelEnv, numBytes: u64) returns (ret: int, ghost trace: seq<Event>)
      ensures ret == if env.copied.Some? then AsSsize(numBytes) else 0
      ensures trace == WriteTrace(env, secretLeakLimitPart2, secretLeakLimitPart3)
    {
      var pages := new Option<Page>[SharedMemoryNumPages];
      for i := 0 to SharedMemoryNumPages
        invariant forall k :: 0 <= k < i ==> pages[k] == None
      {
        pages[i] := None;
      }
      trace := [];

      if env.copied.Some? {
        var cmd := env.copied.value;
        if !env.accessOk(cmd.arg1, SharedMemorySize) {
          return AsSsize(numBytes), trace;
        }
        if !(cmd.arg2 < SecretMaxLen) {
          return AsSsize(numBytes), trace;
        }

        // pin_user_pages_fast stores the pages it pins in pages[0..retval)
        var retval := env.pinResult;
        forall k | 0 <= k < retval {
          pages[k] := Some(UserPage(cmd.arg1, k));
        }
        trace := [Pin(retval)];
        if SharedMemoryNumPages != retval {
          if retval > 0 {
            trace := trace + [Unpin(retval)];
          }
          return AsSsize(numBytes), trace;
        }

        var region, mapped, mapEvents, unwindEvents := MapRegion(env, cmd, pages);
        trace := trace + mapEvents;
        if !mapped {
          trace := trace + unwindEvents;
          return AsSsize(numBytes), trace;
        }
        ghost var primitiveEvents := RunPrimitive(cmd, region);
        trace := trace + primitiveEvents;

        ghost var unmapEvents := UnmapPages(SharedMemoryNumPages);
        trace := trace + unmapEvents + [Unpin(SharedMemoryNumPages)];
        return AsSsize(numBytes), trace;
      } else {
        return 0, trace;
      }
    }
  }
}
