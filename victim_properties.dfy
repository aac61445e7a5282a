/**
 * What a write to the victim file does, path by path, stated over the event
 * trace the handler is proved to produce (LabSpectreKm.WriteTrace): which
 * resources are acquired and released, in what order, and which memory the
 * leak primitives load.
 */
module LabSpectreKmProperties {
  import opened Wrappers
  import opened LabSpectreIpc
  import opened KernelSecrets
  import opened EventTrace
  import opened LabSpectreKm

  /** The secret that each of the three known command kinds reads. */
  function KindSecret(kind: u32): SecretId
    requires kind <= CommandPart3
  {
    if kind == CommandPart1 then Secret1 else if kind == CommandPart2 then Secret2 else Secret3
  }

  lemma SelectFive<T>(a: seq<Event>, b: seq<Event>, c: seq<Event>, d: seq<Event>, e: seq<Event>,
                      pick: Event -> Option<T>)
    ensures Select(a + b + c + d + e, pick)
         == Select(a, pick) + Select(b, pick) + Select(c, pick) + Select(d, pick) + Select(e, pick)
  {
    SelectAppend(a, b, pick);
    SelectAppend(a + b, c, pick);
    SelectAppend(a + b + c, d, pick);
    SelectAppend(a + b + c + d, e, pick);
  }

  /**
   * A leak primitive is at most two loads: first one byte of the secret that
   * the kind selects, at offset arg2, then at most one load through a mapped
   * page. An unknown kind matches no case and loads nothing.
   */
  lemma PrimitiveLoadsAtMostOnce(cmd: Command, limit2: u64, limit3: u64)
    requires cmd.arg2 < SecretMaxLen
    ensures var p := PrimitiveTrace(cmd, limit2, limit3);
      && |p| <= 2
      && (forall e | e in p :: e.ReadSecret? || e.Deref?)
      && (cmd.kind > CommandPart3 ==> p == [])
      && (p != [] ==> cmd.kind <= CommandPart3 && p[0] == ReadSecret(KindSecret(cmd.kind), cmd.arg2))
      && (|p| == 2 ==> p[1].Deref?)
  {
    SecretBytesAreAscii(Secret1, cmd.arg2);
  }

  /**
   * Every page a primitive loads is one of the 256 pages of the caller's
   * region, selected by a secret byte; a secret read is at offset arg2.
   */
  lemma PrimitiveLoadsStayInRegion(cmd: Command, limit2: u64, limit3: u64)
    requires cmd.arg2 < SecretMaxLen
    ensures forall e | e in PrimitiveTrace(cmd, limit2, limit3) && e.ReadSecret? :: e.offset == cmd.arg2
    ensures forall e | e in PrimitiveTrace(cmd, limit2, limit3) && e.Deref? ::
      e.page.base == cmd.arg1 && e.page.index < SharedMemoryNumPages
  {
    SecretBytesAreAscii(Secret1, cmd.arg2);
    SecretBytesAreAscii(Secret2, cmd.arg2);
    SecretBytesAreAscii(Secret3, cmd.arg2);
  }

  /**
   * The first primitive has no bounds check: its guard is true of every signed
   * char, so it always reads secret 1 at arg2 and then loads the mapped page
   * that byte selects.
   */
  lemma Part1AlwaysLoadsSecretPage(cmd: Command, limit2: u64, limit3: u64)
    requires cmd.kind == CommandPart1 && cmd.arg2 < SecretMaxLen
    ensures PrimitiveTrace(cmd, limit2, limit3)
         == [ReadSecret(Secret1, cmd.arg2), Deref(UserPage(cmd.arg1, KernelSecret1[cmd.arg2]))]
  {
    SignedCharGuardAlwaysHolds(KernelSecret1[cmd.arg2]);
  }

  /**
   * The second and third primitives load through a mapped page exactly when
   * arg2 is below their limit, and the page they load is the one the secret
   * byte at arg2 selects. The second reads its secret byte at arg2 whatever
   * the limit; the third does not even read its secret otherwise.
   */
  lemma GuardedPrimitivesRespectLimit(cmd: Command, limit2: u64, limit3: u64)
    requires cmd.kind == CommandPart2 || cmd.kind == CommandPart3
    requires cmd.arg2 < SecretMaxLen
    ensures var p := PrimitiveTrace(cmd, limit2, limit3);
      var limit := if cmd.kind == CommandPart2 then limit2 else limit3;
      && ((exists e | e in p :: e.Deref?) <==> cmd.arg2 < limit)
      && (forall e | e in p && e.Deref? :: e.page == UserPage(cmd.arg1, Secret(KindSecret(cmd.kind))[cmd.arg2]))
      && (cmd.kind == CommandPart2 ==> |p| >= 1 && p[0] == ReadSecret(Secret2, cmd.arg2))
      && (cmd.kind == CommandPart3 ==> (p != [] <==> cmd.arg2 < limit))
  {
    var p := PrimitiveTrace(cmd, limit2, limit3);
    if cmd.kind == CommandPart2 && cmd.arg2 < limit2 {
      assert p[1] in p;
    } else if cmd.kind == CommandPart3 && cmd.arg2 < limit3 {
      assert p[1] in p;
    }
  }

  /**
   * A write that is not copied, whose region fails access_ok, or whose secret
   * offset is 64 or more does nothing at all: no pin, no mapping, no load.
   * Every other write pins.
   */
  lemma RejectedWriteTouchesNothing(env: KernelEnv, limit2: u64, limit3: u64)
    ensures WriteTrace(env, limit2, limit3) == [] <==> !Validated(env)
  {
    if Validated(env) {
      assert WriteTrace(env, limit2, limit3)[0].Pin?;
    }
  }

  /**
   * When pinning yields fewer than 256 pages, exactly the pages pinned are
   * unpinned (none for an error code), and nothing is mapped or loaded.
   */
  lemma PinShortfallReleasesWhatWasPinned(env: KernelEnv, limit2: u64, limit3: u64)
    requires Validated(env) && env.pinResult != SharedMemoryNumPages
    ensures var t := WriteTrace(env, limit2, limit3);
      && PinsAcquired(t) == (if env.pinResult > 0 then env.pinResult else 0)
      && PinsReleased(t) == PinsAcquired(t)
      && MapOrder(t) == [] && UnmapOrder(t) == []
      && RunsNoPrimitive(t)
      && PhaseOrdered(t)
  {
    var r := env.pinResult;
    var pin: seq<Event> := [Pin(r)];
    SelectSingle(Pin(r), PinnedCount);
    SelectSingle(Pin(r), UnpinnedCount);
    SelectSingle(Pin(r), MapIndex);
    SelectSingle(Pin(r), UnmapIndex);
    if r > 0 {
      var unpin: seq<Event> := [Unpin(r)];
      assert WriteTrace(env, limit2, limit3) == pin + unpin;
      SelectAppend(pin, unpin, PinnedCount);
      SelectAppend(pin, unpin, UnpinnedCount);
      SelectAppend(pin, unpin, MapIndex);
      SelectAppend(pin, unpin, UnmapIndex);
      SelectSingle(Unpin(r), PinnedCount);
      SelectSingle(Unpin(r), UnpinnedCount);
      SelectSingle(Unpin(r), MapIndex);
      SelectSingle(Unpin(r), UnmapIndex);
      assert Select(pin + unpin, PinnedCount) == [r as nat] + [];
      assert Select(pin + unpin, UnpinnedCount) == [] + [r as nat] == [r as nat];
      assert Sum([r as nat]) == r;
    }
  }

  lemma UnwoundTraceOrders(n: nat, k: nat)
    ensures MapOrder(UnwoundTrace(n, k)) == Range(0, k)
    ensures UnmapOrder(UnwoundTrace(n, k)) == Reverse(Range(0, k))
  {
    var pin: seq<Event> := [Pin(n)];
    MapsUpShape(k);
    UnmapsDownShape(k, 0);
    SelectSingle(Pin(n), MapIndex);
    SelectSingle(Pin(n), UnmapIndex);
    SelectAppend(pin, MapsUp(k), MapIndex);
    SelectAppend(pin + MapsUp(k), UnmapsDown(k, 0), MapIndex);
    SelectAppend(pin, MapsUp(k), UnmapIndex);
    SelectAppend(pin + MapsUp(k), UnmapsDown(k, 0), UnmapIndex);
  }

  lemma UnwoundTracePins(n: nat, k: nat)
    ensures PinsAcquired(UnwoundTrace(n, k)) == n
    ensures PinsReleased(UnwoundTrace(n, k)) == 0
  {
    var pin: seq<Event> := [Pin(n)];
    MapsUpShape(k);
    UnmapsDownShape(k, 0);
    SelectSingle(Pin(n), PinnedCount);
    SelectSingle(Pin(n), UnpinnedCount);
    SelectAppend(pin, MapsUp(k), PinnedCount);
    SelectAppend(pin + MapsUp(k), UnmapsDown(k, 0), PinnedCount);
    SelectAppend(pin, MapsUp(k), UnpinnedCount);
    SelectAppend(pin + MapsUp(k), UnmapsDown(k, 0), UnpinnedCount);
    assert Sum([n]) == n;
  }

  lemma UnwoundTraceNests(n: nat, k: nat)
    ensures PhaseOrdered(UnwoundTrace(n, k))
    ensures RunsNoPrimitive(UnwoundTrace(n, k))
  {
    var pin: seq<Event> := [Pin(n)];
    MapsUpShape(k);
    UnmapsDownShape(k, 0);
    SinglePhaseIsOrdered(pin, 0);
    SinglePhaseIsOrdered(MapsUp(k), 1);
    SinglePhaseIsOrdered(UnmapsDown(k, 0), 3);
    PhaseOrderedAppend(pin, MapsUp(k), 0, 0, 1);
    PhaseOrderedAppend(pin + MapsUp(k), UnmapsDown(k, 0), 0, 1, 3);
    RunsNoPrimitiveAppend(pin, MapsUp(k));
    RunsNoPrimitiveAppend(pin + MapsUp(k), UnmapsDown(k, 0));
  }

  /** A primitive's loads contribute nothing to the pin and map observers. */
  lemma LoadsSelectNothing(p: seq<Event>)
    requires forall e | e in p :: e.ReadSecret? || e.Deref?
    ensures MapOrder(p) == [] && UnmapOrder(p) == []
    ensures Select(p, PinnedCount) == [] && Select(p, UnpinnedCount) == []
  {
    SelectNone(p, MapIndex);
    SelectNone(p, UnmapIndex);
    SelectNone(p, PinnedCount);
    SelectNone(p, UnpinnedCount);
  }

  lemma CompletedTraceOrders(n: nat, p: seq<Event>)
    requires forall e | e in p :: e.ReadSecret? || e.Deref?
    ensures MapOrder(CompletedTrace(n, p)) == Range(0, n)
    ensures UnmapOrder(CompletedTrace(n, p)) == Reverse(Range(0, n))
  {
    MapsUpShape(n);
    UnmapsDownShape(n, 0);
    LoadsSelectNothing(p);
    SelectSingle(Pin(n), MapIndex);
    SelectSingle(Unpin(n), MapIndex);
    SelectSingle(Pin(n), UnmapIndex);
    SelectSingle(Unpin(n), UnmapIndex);
    SelectFive([Pin(n)], MapsUp(n), p, UnmapsDown(n, 0), [Unpin(n)], MapIndex);
    SelectFive([Pin(n)], MapsUp(n), p, UnmapsDown(n, 0), [Unpin(n)], UnmapIndex);
  }

  lemma CompletedTraceUnpins(n: nat, p: seq<Event>)
    requires forall e | e in p :: e.ReadSecret? || e.Deref?
    ensures Select(CompletedTrace(n, p), UnpinnedCount) == [n]
    ensures PinsReleased(CompletedTrace(n, p)) == n
  {
    MapsUpShape(n);
    UnmapsDownShape(n, 0);
    LoadsSelectNothing(p);
    SelectSingle(Pin(n), UnpinnedCount);
    SelectSingle(Unpin(n), UnpinnedCount);
    SelectFive([Pin(n)], MapsUp(n), p, UnmapsDown(n, 0), [Unpin(n)], UnpinnedCount);
    assert Sum([n]) == n;
  }

  lemma CompletedTracePins(n: nat, p: seq<Event>)
    requires forall e | e in p :: e.ReadSecret? || e.Deref?
    ensures PinsAcquired(CompletedTrace(n, p)) == n
  {
    MapsUpShape(n);
    UnmapsDownShape(n, 0);
    LoadsSelectNothing(p);
    SelectSingle(Pin(n), PinnedCount);
    SelectSingle(Unpin(n), PinnedCount);
    SelectFive([Pin(n)], MapsUp(n), p, UnmapsDown(n, 0), [Unpin(n)], PinnedCount);
    assert Sum([n]) == n;
  }

  lemma CompletedTraceNests(n: nat, p: seq<Event>)
    requires forall e | e in p :: e.ReadSecret? || e.Deref?
    ensures PhaseOrdered(CompletedTrace(n, p))
    ensures forall e | e in CompletedTrace(n, p) && (e.ReadSecret? || e.Deref?) :: e in p
  {
    var pin: seq<Event> := [Pin(n)];
    var unpin: seq<Event> := [Unpin(n)];
    MapsUpShape(n);
    UnmapsDownShape(n, 0);
    SinglePhaseIsOrdered(pin, 0);
    SinglePhaseIsOrdered(MapsUp(n), 1);
    SinglePhaseIsOrdered(p, 2);
    SinglePhaseIsOrdered(UnmapsDown(n, 0), 3);
    SinglePhaseIsOrdered(unpin, 4);
    PhaseOrderedAppend(pin, MapsUp(n), 0, 0, 1);
    PhaseOrderedAppend(pin + MapsUp(n), p, 0, 1, 2);
    PhaseOrderedAppend(pin + MapsUp(n) + p, UnmapsDown(n, 0), 0, 2, 3);
    PhaseOrderedAppend(pin + MapsUp(n) + p + UnmapsDown(n, 0), unpin, 0, 3, 4);
  }

  /**
   * When kmap fails at page k, pages 0..k-1 were mapped in order and are
   * unmapped k-1 down to 0, and nothing is loaded. The 256 pins are NOT
   * released on this path: the handler returns holding them.
   */
  lemma KmapFailureUnwindsInReverse(env: KernelEnv, limit2: u64, limit3: u64)
    requires Validated(env) && env.pinResult == SharedMemoryNumPages && KmapFails(env)
    ensures var t := WriteTrace(env, limit2, limit3);
      var k := env.kmapFailsAt.value;
      && MapOrder(t) == Range(0, k)
      && UnmapOrder(t) == Reverse(MapOrder(t))
      && RunsNoPrimitive(t)
      && PinsAcquired(t) == SharedMemoryNumPages
      && PinsReleased(t) == 0
      && PhaseOrdered(t)
  {
    var k := env.kmapFailsAt.value;
    UnwoundTraceOrders(SharedMemoryNumPages, k);
    UnwoundTracePins(SharedMemoryNumPages, k);
    UnwoundTraceNests(SharedMemoryNumPages, k);
  }

  /**
   * When every page is mapped, pages are mapped 0..255 in order, then
   * unmapped 255 down to 0, and then all 256 are unpinned by one call, which
   * is the last thing the handler does.
   */
  lemma CompletedWriteTearsDownInReverse(env: KernelEnv, limit2: u64, limit3: u64)
    requires Validated(env) && env.pinResult == SharedMemoryNumPages && !KmapFails(env)
    ensures var t := WriteTrace(env, limit2, limit3);
      && MapOrder(t) == Range(0, SharedMemoryNumPages)
      && UnmapOrder(t) == Reverse(MapOrder(t))
      && Select(t, UnpinnedCount) == [SharedMemoryNumPages]
      && t[|t| - 1] == Unpin(SharedMemoryNumPages)
      && PinsAcquired(t) == PinsReleased(t) == SharedMemoryNumPages
      && PhaseOrdered(t)
  {
    var p := PrimitiveTrace(env.copied.value, limit2, limit3);
    PrimitiveLoadsAtMostOnce(env.copied.value, limit2, limit3);
    CompletedTraceOrders(SharedMemoryNumPages, p);
    CompletedTraceUnpins(SharedMemoryNumPages, p);
    CompletedTracePins(SharedMemoryNumPages, p);
    CompletedTraceNests(SharedMemoryNumPages, p);
  }

  /**
   * On every path resources nest like a stack: pins come before mappings,
   * mappings before the primitive's loads, loads before unmappings and
   * unmappings before unpins; and pages are unmapped in exactly the reverse
   * of the order they were mapped.
   */
  lemma LifecycleNestsLikeAStack(env: KernelEnv, limit2: u64, limit3: u64)
    ensures PhaseOrdered(WriteTrace(env, limit2, limit3))
    ensures UnmapOrder(WriteTrace(env, limit2, limit3)) == Reverse(MapOrder(WriteTrace(env, limit2, limit3)))
  {
    if !Validated(env) {
    } else if env.pinResult != SharedMemoryNumPages {
      PinShortfallReleasesWhatWasPinned(env, limit2, limit3);
    } else if KmapFails(env) {
      KmapFailureUnwindsInReverse(env, limit2, limit3);
    } else {
      CompletedWriteTearsDownInReverse(env, limit2, limit3);
    }
  }

  /**
   * Every pin is released exactly when kmap does not fail: on the kmap
   * failure path the handler returns still holding all 256 pins.
   */
  lemma PinsBalancedUnlessKmapFails(env: KernelEnv, limit2: u64, limit3: u64)
    ensures PinsReleased(WriteTrace(env, limit2, limit3)) == PinsAcquired(WriteTrace(env, limit2, limit3))
        <==> !(Validated(env) && env.pinResult == SharedMemoryNumPages && KmapFails(env))
  {
    if !Validated(env) {
    } else if env.pinResult != SharedMemoryNumPages {
      PinShortfallReleasesWhatWasPinned(env, limit2, limit3);
    } else if KmapFails(env) {
      KmapFailureUnwindsInReverse(env, limit2, limit3);
    } else {
      CompletedWriteTearsDownInReverse(env, limit2, limit3);
    }
  }

  /**
   * Secret bytes and mapped pages are loaded only once the packet is valid
   * and all 256 pages are pinned and mapped; the secret byte read is the one
   * at arg2, below 64; and every page loaded is one of the 256 pages of the
   * caller's region at arg1.
   */
  lemma LoadsStayInBounds(env: KernelEnv, limit2: u64, limit3: u64)
    ensures forall e | e in WriteTrace(env, limit2, limit3) && (e.ReadSecret? || e.Deref?) ::
      Validated(env) && env.pinResult == SharedMemoryNumPages && !KmapFails(env)
    ensures forall e | e in WriteTrace(env, limit2, limit3) && e.ReadSecret? ::
      env.copied.Some? && e.offset == env.copied.value.arg2 < SecretMaxLen
    ensures forall e | e in WriteTrace(env, limit2, limit3) && e.Deref? ::
      env.copied.Some? && e.page.base == env.copied.value.arg1 && e.page.index < SharedMemoryNumPages
  {
    if !Validated(env) {
    } else if env.pinResult != SharedMemoryNumPages {
      PinShortfallReleasesWhatWasPinned(env, limit2, limit3);
    } else if KmapFails(env) {
      KmapFailureUnwindsInReverse(env, limit2, limit3);
    } else {
      var cmd := env.copied.value;
      var p := PrimitiveTrace(cmd, limit2, limit3);
      PrimitiveLoadsAtMostOnce(cmd, limit2, limit3);
      PrimitiveLoadsStayInRegion(cmd, limit2, limit3);
      CompletedTraceNests(SharedMemoryNumPages, p);
    }
  }
}
