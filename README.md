# Spectre lab victim module, modelled in Dafny

This project models the kernel side of the MIT Secure Hardware Design Spectre
lab. A kernel module exposes a procfs file. Writing a `spectre_lab_command`
packet to that file makes the module run one of three leak primitives:

- Part 1 is Flush+Reload with no bounds check.
- Part 2 is a Spectre bounds-check bypass whose limit is flushed from the cache.
- Part 3 is a bounds-check bypass behind a long dependency chain.

When its bounds check, if it has one, passes, each primitive reads one byte of a
kernel secret and then loads from the page of the caller's 256-page shared
region that the byte selects. Part 2 reads its secret byte even when its check
fails, and only skips the load.

The model is layered as follows.

- `LabSpectreIpc` (`lab_ipc.dfy`) holds the shared constants and the command
  packet.
- `KernelSecrets` (`secrets.dfy`) holds the three secrets and the two leak
  limits. A secret is the 64-byte zero-padded contents of its initialiser, as
  signed chars. This module also proves that every secret byte is ASCII, so the
  byte is a valid page index. That fact, not the handler's guard, is what keeps
  every load in bounds.
- `EventTrace` (`trace.dfy`) is the vocabulary for what the handler does to
  kernel resources: pin, map, read a secret byte, dereference a mapped page,
  unmap, unpin. It also defines observers over a trace, such as the order in
  which pages are mapped and unmapped and the number of pins acquired and
  released.
- `LabSpectreKm` (`victim.dfy`) is the module itself. The class `LabModule`
  holds the two leak limits, which are module globals. Its methods are the read
  handler and the write handler. The write handler keeps the C structure:
  - an array of page pointers;
  - the kmap loop, with its reverse unwinding on failure;
  - the switch on the command kind;
  - the reverse unmap loop and the final unpin.

  The kernel services the handler calls are inputs, bundled in a `KernelEnv`:
  `copy_from_user`, `access_ok`, `pin_user_pages_fast` and `kmap`. The handler
  returns its `ssize_t` result. It also returns a ghost trace, which is proved
  equal to the specification function `WriteTrace`.
- `LabSpectreKmProperties` (`victim_properties.dfy`) proves what the handler
  promises, path by path, over `WriteTrace`.

Three behaviours of the handler are worth stating up front, and the model keeps
all three as the code has them.

- A kmap failure (labspectrekm.c:167-176) unmaps the pages already mapped, but
  it returns without unpinning the 256 pinned pages.
  `KmapFailureUnwindsInReverse` states that no pins are released on that path.
  `PinsBalancedUnlessKmapFails` shows that this is the only path where pins and
  unpins differ.
- The handler never compares `num_bytes` with `sizeof(user_cmd)`, although its
  comment at labspectrekm.c:105 says a write carries one `spectre_lab_command`.
  It always copies `sizeof(user_cmd)` bytes and returns `num_bytes` unchanged.
  The model does the same.
- The Part 1 guard `secret_data < 256` compares a signed `char` with 256. It
  holds for every `char` (`SignedCharGuardAlwaysHolds`), so the guard bounds
  nothing. A negative byte would pass it (`SignedCharGuardAdmitsNegativeIndex`).

## Model

| member | source | states |
|---|---|---|
| LabSpectreKm.LabModule.VictimWrite | lab-spectre/module-src/labspectrekm.c:111-235 | returns 0 when the packet cannot be copied and `num_bytes` (as `ssize_t`) on every other path; the resource and load events it performs are exactly `WriteTrace` of the environment and the current leak limits |
| LabSpectreKm.LabModule.MapRegion | lab-spectre/module-src/labspectrekm.c:164-177 | maps pages 0..255 in order and succeeds exactly when no kmap fails; on success page k's alias is page k of the caller's region; when kmap fails at page i, pages 0..i-1 were mapped and are then unmapped i-1 down to 0 |
| LabSpectreKm.LabModule.UnmapPages | lab-spectre/module-src/labspectrekm.c:171-173 | unmaps pages count-1 down to 0, one kunmap each, in that order |
| LabSpectreKm.LabModule.RunPrimitive | lab-spectre/module-src/labspectrekm.c:180-214 | performs exactly the loads of the primitive the command kind selects, through the mapped aliases, under the current leak limits |
| LabSpectreKm.LabModule.VictimRead | lab-spectre/module-src/labspectrekm.c:97-100 | reading the victim file always returns 0 |
| LabSpectreKm.LabModule.constructor | lab-spectre/module-src/labspectrekm.c:31-32 | both leak limits start at 4 |
| LabSpectreKm.AsSsize | lab-spectre/module-src/labspectrekm.c:111 | the `size_t` count returned as `ssize_t` is congruent to it modulo 2^64, lies in the signed 64-bit range, and equals it below 2^63 |
| LabSpectreKm.LongLatency | lab-spectre/module-src/labspectrekm.c:210 | `long_latency` is always 0 |
| LabSpectreKm.Part3PageIndex | lab-spectre/module-src/labspectrekm.c:211 | the Part 3 index is the secret 3 byte at arg2, and it is a valid page index |
| KernelSecrets.SecretBytesAreAscii | lab-spectre/module-src/labspectrekm.c:26-28 | every secret is 64 bytes and every byte lies in 0..127 |
| KernelSecrets.SignedCharGuardAlwaysHolds | lab-spectre/module-src/labspectrekm.c:183-184 | the Part 1 guard `secret_data < 256` holds for every signed char |
| KernelSecrets.SignedCharGuardAdmitsNegativeIndex | lab-spectre/module-src/labspectrekm.c:183-185 | some char passes the Part 1 guard without being a page index, so the guard does not make the load safe |
| LabSpectreKmProperties.PrimitiveLoadsAtMostOnce | lab-spectre/module-src/labspectrekm.c:180-214 | a primitive is at most two loads: the selected secret's byte at arg2, then at most one page; an unknown kind loads nothing |
| LabSpectreKmProperties.PrimitiveLoadsStayInRegion | lab-spectre/module-src/labspectrekm.c:180-214 | every secret read is at offset arg2, and every page loaded is one of the 256 pages of the region at arg1 |
| LabSpectreKmProperties.Part1AlwaysLoadsSecretPage | lab-spectre/module-src/labspectrekm.c:182-187 | Part 1 always reads secret 1 at arg2 and then loads the page that byte selects, whatever the limits |
| LabSpectreKmProperties.GuardedPrimitivesRespectLimit | lab-spectre/module-src/labspectrekm.c:190-213 | Part 2 and Part 3 load a page exactly when arg2 is below their limit, and the page is the one their secret byte selects; Part 2 reads `kernel_secret2[arg2]` whatever the limit, while Part 3 reads no secret otherwise |
| LabSpectreKmProperties.RejectedWriteTouchesNothing | lab-spectre/module-src/labspectrekm.c:126-137 | a write does nothing (no pin, map or load) exactly when the copy fails, access_ok fails or arg2 is at least 64 |
| LabSpectreKmProperties.PinShortfallReleasesWhatWasPinned | lab-spectre/module-src/labspectrekm.c:141-160 | when fewer than 256 pages are pinned, the pages pinned (none for an error code) are all unpinned, and nothing is mapped or loaded |
| LabSpectreKmProperties.KmapFailureUnwindsInReverse | lab-spectre/module-src/labspectrekm.c:164-177 | when kmap fails at page k, pages 0..k-1 are mapped in order and unmapped in reverse, nothing is loaded, and the 256 pins are acquired and none released |
| LabSpectreKmProperties.CompletedWriteTearsDownInReverse | lab-spectre/module-src/labspectrekm.c:164-229 | on success pages 0..255 are mapped in order and unmapped in reverse, then one unpin of all 256 pages ends the trace, balancing the pins |
| LabSpectreKmProperties.LifecycleNestsLikeAStack | lab-spectre/module-src/labspectrekm.c:139-226 | on every path pins precede maps, maps precede loads, loads precede unmaps and unmaps precede unpins, and pages are unmapped in the reverse of their mapping order |
| LabSpectreKmProperties.PinsBalancedUnlessKmapFails | lab-spectre/module-src/labspectrekm.c:146-226 | the pins released equal the pins acquired exactly when the write does not stop at a kmap failure |
| LabSpectreKmProperties.LoadsStayInBounds | lab-spectre/module-src/labspectrekm.c:126-214 | loads happen only once the packet is valid and all pages are pinned and mapped; the secret offset is arg2 < 64, and every page loaded is one of the 256 region pages |
| LabSpectreKmProperties.UnwoundTraceOrders | lab-spectre/module-src/labspectrekm.c:164-177 | a write stopped by kmap at page k maps 0..k-1 and unmaps them in reverse |
| LabSpectreKmProperties.UnwoundTracePins | lab-spectre/module-src/labspectrekm.c:141-177 | a write stopped by kmap pins its pages and releases none |
| LabSpectreKmProperties.CompletedTraceOrders | lab-spectre/module-src/labspectrekm.c:164-219 | a completed write maps 0..255 and unmaps them in reverse |
| LabSpectreKmProperties.CompletedTracePins | lab-spectre/module-src/labspectrekm.c:141-226 | a completed write acquires exactly 256 pins |
| LabSpectreKmProperties.CompletedTraceUnpins | lab-spectre/module-src/labspectrekm.c:221-226 | a completed write releases all 256 pins with one call |
| EventTrace.MapsUpShape | lab-spectre/module-src/labspectrekm.c:164-165 | the events of the kmap loop map pages 0..n-1 in increasing order and do nothing else |
| EventTrace.UnmapsDownShape | lab-spectre/module-src/labspectrekm.c:217-219 | the events of a reverse unmap loop unmap pages hi-1 down to lo and do nothing else |

## Left out

- The microarchitectural behaviour is not modelled: cache state, speculation,
  TLB misses, the `clflush` of the Part 2 limit (labspectrekm.c:198), the
  Part 3 delay loop (:208) and `volatile`. The model records which memory is
  loaded, not how long a load takes or what it leaves in the cache.
- Kernel logging (`printk`, `print_cmd`) is not modelled.
- Module init and exit (`proc_create`, `proc_remove`) and the `proc_ops` /
  `file_operations` tables are not modelled. They only register and remove the
  handlers.
- The kernel services are inputs, so the model does not capture what they do.
  These are `copy_from_user`, `access_ok`, `pin_user_pages_fast` and `kmap`.
  The pinned page for index k is taken to be page k of the region at `arg1`.
- The kernel-version switch is not modelled. Kernels before 5.6 call
  `get_user_pages_fast` / `put_user_pages` instead of the pin variants. The model
  covers the pin variants only, and the events would be the same.
- The user-space attacker, its build and the lab's grading script are not part
  of this model.
- LabSpectreKm.LabModule.VictimWrite: does not check `num_bytes` against the
  packet size, because the code does not either. The result is `num_bytes`
  converted to `ssize_t` by `AsSsize`.
- LabSpectreKm.LabModule.RunPrimitive: the byte written to `tmp` by a load is
  not modelled. Only the page loaded is recorded.
- Nothing in the module changes the leak limits after load. The model keeps
  them as fields of `LabModule`, so the properties hold for any limits.
