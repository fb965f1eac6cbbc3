# Sandbox memory layout of the x86 executor

This project models the sandbox layout of the x86 executor. The layout is the
set of size and offset macros in `sandbox_manager.h` and the packed structs
built from them:

- `util_t` holds the L1D priming area, the saved stack pointer and the latest
  measurement.
- `actor_data_t` holds the memory a test case sees: macro stack, underflow pad,
  main area, faulty area, register-initialisation area and overflow pad.
- `actor_code_t` holds the expanded code section and its macros.

Test-case code reaches this memory through constant displacements from r14,
which points at the base of `main_area`. The `*_OFFSET` macros are those
displacements. Members after `main_area` are reached by adding the offset.
Members of `util_t` are reached by subtracting it, because `util_t` is placed
directly before the actor data.

The model has three modules:

- `PackedLayout` treats a packed struct as an ordered list of (name, size)
  members. Member offsets are prefix sums, and `sizeof` is the total. `Locate`
  maps a byte position back to the member and the offset inside it. It is
  proved to be the inverse of `OffsetOf`.
- `SandboxManager` states every macro as a constant or function and every
  struct as a member list. It also defines `ActorMemory`, which is `util_t`
  followed by `actor_data_t`. `L1D_ASSOCIATIVITY` (`assoc`) and
  `sizeof(measurement_t)` (`measurement`) come from headers outside this model,
  so they are parameters.
- `SandboxProperties` proves that each offset macro lands on the member it is
  named after. It also proves that the regions are contiguous and fill whole
  pages, and it says which region an access at `r14 + disp` touches.

`sizeof` is unsigned in C, so the length of `util_t.unused`,
`4096 - 8 - sizeof(measurement_t)`, is computed modulo 2^64. `UnusedSize`
shows why the header compiles only when the measurement is at most 4088 bytes:
any larger measurement wraps the length around to one that no C object can
have. The struct functions take this as their precondition
(`MeasurementFits`).

The macros are C `int` expressions, and test-case code uses the offsets as
32-bit signed immediates. The largest of them, `L1D_PRIMING_OFFSET`, grows by
one page per L1D way. `AssocFits` is the bound under which it is still an
`int`: an associativity of at most 524285. The layout functions and lemmas
require it, next to `MeasurementFits`.

The test suite corroborates the layout: a load at `r14 + 4096` is the one that
faults (tests/x86_tests/unit_model.py:264-272). `FaultyAreaAccess` proves that
displacement 4096 is the first byte of `faulty_area`.

## Model

| member | source | states |
|---|---|---|
| `PackedLayout.OffsetOf` | src/x86/executor/include/sandbox_manager.h:48 | a packed member's offset plus the size of the members after it is the struct's size (no padding anywhere) |
| `PackedLayout.SizeOfAppend` | src/x86/executor/include/sandbox_manager.h:48 | a packed struct made of two parts is exactly as large as the two parts together |
| `PackedLayout.Contiguous` | src/x86/executor/include/sandbox_manager.h:48 | each packed member ends exactly where the next one starts |
| `PackedLayout.OffsetOfTail` | src/x86/executor/include/sandbox_manager.h:48 | a member's offset is the first member's size plus its offset within the remaining members |
| `PackedLayout.OffsetOfAppend` | src/x86/executor/include/sandbox_manager.h:40-42 | a member of a struct placed right after another struct starts at that struct's size plus its own offset |
| `PackedLayout.Disjoint` | src/x86/executor/include/sandbox_manager.h:48 | members never overlap, and each lies inside the struct |
| `PackedLayout.Locate` | src/x86/executor/include/sandbox_manager.h:48 | a byte position is inside the struct exactly when some member holds it; the member found and the offset inside it add back up to the position |
| `PackedLayout.LocateOffset` | src/x86/executor/include/sandbox_manager.h:48 | Locate inverts OffsetOf: every byte of every member is found in that member at its own offset |
| `PackedLayout.Repeat` | src/x86/executor/include/sandbox_manager.h:24 | an array of n equal elements has n members, each of them that element |
| `PackedLayout.RepeatSize` | src/x86/executor/include/sandbox_manager.h:24 | an array of n equal elements is n times the element size |
| `PackedLayout.RepeatOffset` | src/x86/executor/include/sandbox_manager.h:24 | element k of an array of equal elements starts at k times the element size, and the array is n times that size |
| `SandboxManager.L1dPrimingAreaSize` | src/x86/executor/include/sandbox_manager.h:17 | the priming area is a whole number of pages, one per L1D way |
| `SandboxManager.L1dPrimingOffset` | src/x86/executor/include/sandbox_manager.h:29 | L1D_PRIMING_OFFSET is 8192 + 4096 × assoc, and it is a C `int` exactly when `AssocFits` holds |
| `SandboxProperties.AssocBound` | src/x86/executor/include/sandbox_manager.h:17-29 | the associativity-dependent macros stay `int` exactly for assoc ≤ 524285 |
| `SandboxProperties.MacroValues` | src/x86/executor/include/sandbox_manager.h:29-38 | the offset macros evaluate to 4032, 4096, 8184, 8192, 8192 + 4096 × assoc, 0, 4096, 8192 and 8512; the code sizes are 0x2000 and 0x1000; for an associativity that fits, every offset is an `int` |
| `SandboxManager.UtilT` | src/x86/executor/include/sandbox_manager.h:43-48 | `util_t` has four members, and its size is the priming area plus one page |
| `SandboxManager.ActorDataT` | src/x86/executor/include/sandbox_manager.h:51-58 | `actor_data_t` has six members that together take exactly four pages |
| `SandboxManager.RegInitRegisters` | src/x86/executor/include/sandbox_manager.h:24 | 16 registers (8 GPRs and 8 YMMs) fill exactly REG_INIT_AREA_SIZE bytes |
| `SandboxManager.ActorCodeT` | src/x86/executor/include/sandbox_manager.h:70-73 | `actor_code_t` has two members that together take 0x3000 bytes |
| `SandboxManager.ActorMemory` | src/x86/executor/include/sandbox_manager.h:40-42 | the actor's memory is `util_t` followed directly by `actor_data_t`, and its size is the priming area plus five pages |
| `SandboxManager.Displacement` | src/x86/executor/include/sandbox_manager.h:27 | measured from r14, a member's displacement is negative exactly when the member comes before `main_area` |
| `SandboxManager.OrderAroundMainArea` | src/x86/executor/include/sandbox_manager.h:40-42 | in the combined layout, a member starts below `main_area` exactly when it precedes `main_area` |
| `SandboxManager.RegionAt` | src/x86/executor/include/sandbox_manager.h:27-28 | when r14 + disp falls in a member, that member starts at displacement disp minus the byte's offset inside it |
| `SandboxManager.UnusedSize` | src/x86/executor/include/sandbox_manager.h:47 | the unsigned length of `unused` completes the page after `stored_rsp` exactly when the measurement is at most 4088 bytes; otherwise it exceeds the largest C object |
| `SandboxProperties.UtilTLayout` | src/x86/executor/include/sandbox_manager.h:43-48 | the priming area takes `assoc` pages, `stored_rsp` starts right after it, `latest_measurement` starts 8 bytes later, `unused` follows the measurement, and `util_t` is the priming area plus 4096 bytes |
| `SandboxProperties.ActorDataTLayout` | src/x86/executor/include/sandbox_manager.h:20-58 | the macro stack plus underflow pad, and the register area plus overflow pad, are each one page; members start at 0, 64, 4096, 8192, 12288 and 12608; `actor_data_t` is 4 × 4096 bytes |
| `SandboxProperties.RegInitAreaHoldsRegisters` | src/x86/executor/include/sandbox_manager.h:24 | 8 eight-byte GPRs and 8 thirty-two-byte YMMs fill exactly REG_INIT_AREA_SIZE = 320 bytes; with the GPRs assumed to come first (the header gives only the counts), GPR k sits at 8k and YMM k at 64 + 32k |
| `SandboxProperties.ActorCodeTLayout` | src/x86/executor/include/sandbox_manager.h:67-73 | `section` is [0, 0x2000), `macros` is [0x2000, 0x3000), and `actor_code_t` is 0x3000 bytes; a code byte lies in `section` or `macros` exactly when it is in the matching range |
| `SandboxProperties.ActorMemoryLayout` | src/x86/executor/include/sandbox_manager.h:40-42 | with `util_t` placed directly before the actor data, each actor-data member is shifted by `sizeof(util_t)` and is otherwise unchanged |
| `SandboxProperties.UtilMemberInMemory` | src/x86/executor/include/sandbox_manager.h:40-42 | with `util_t` placed directly before the actor data, the `util_t` members keep their own offsets |
| `SandboxProperties.MainAreaBase` | src/x86/executor/include/sandbox_manager.h:27 | r14 (the base of `main_area`) lies `assoc` × 4096 + 2 × 4096 bytes past the start of `util_t` |
| `SandboxProperties.ForwardOffsetsLand` | src/x86/executor/include/sandbox_manager.h:35-38 | MAIN_AREA_OFFSET, FAULTY_AREA_OFFSET, REG_INIT_OFFSET and OVERFLOW_PAD_OFFSET (0, 4096, 8192 and 8512) are the displacements from r14 to the members they name |
| `SandboxProperties.UtilOffsetLands` | src/x86/executor/include/sandbox_manager.h:32-34 | r14 − UTIL_OFFSET is both the end of `util_t` and the start of `macro_stack`; r14 − MACRO_STACK_TOP_OFFSET is the top of `macro_stack` |
| `SandboxProperties.UtilFieldOffsetsLand` | src/x86/executor/include/sandbox_manager.h:30-31 | r14 − STORED_RSP_OFFSET is `stored_rsp`; r14 − MEASUREMENT_OFFSET is `latest_measurement`, 8 bytes further; the measurement ends no later than r14 − UTIL_OFFSET |
| `SandboxProperties.L1dPrimingOffsetLands` | src/x86/executor/include/sandbox_manager.h:29 | for every associativity for which the macros are `int`, r14 − L1D_PRIMING_OFFSET is the start of `util_t` and of `l1d_priming_area`, which is `assoc` × 4096 bytes |
| `SandboxProperties.MainAreaAccess` | src/x86/executor/include/sandbox_manager.h:54 | an access at r14 + disp lands in `main_area`, at offset disp, exactly when 0 ≤ disp < 4096 |
| `SandboxProperties.FaultyAreaAccess` | src/x86/executor/include/sandbox_manager.h:36 | an access at r14 + disp lands in `faulty_area`, at offset disp − 4096, exactly when 4096 ≤ disp < 8192 |
| `SandboxProperties.RegionBounds` | src/x86/executor/include/sandbox_manager.h:27-29 | r14 + disp falls inside `util_t` or `actor_data_t` exactly when −L1D_PRIMING_OFFSET ≤ disp < OVERFLOW_PAD_OFFSET + OVERFLOW_PAD_SIZE |

## Left out

- `allocate_sandbox`, `init_sandbox_manager`, `free_sandbox_manager` and the globals `sandbox` and `main_stack_base` are not modelled. They allocate kernel memory, and their bodies are not part of this model.
- `sandbox_t` holds only pointers to the three structs. Its layout constrains nothing. The model assumes the placement that the header requires, with `util_t` directly before `actor_data_t`, rather than deriving it from an allocator.
- The contents of `measurement_t` and the value of `L1D_ASSOCIATIVITY` come from `measurement.h` and `hardware_desc.h`, which are not part of this model. They are the parameters `measurement` and `assoc`.
- `RegInitRegisters`: the order of the registers in the area, GPRs first, is assumed. The header gives only the counts.
- Packing is modelled only as "members laid out back to back with no padding". Alignment and the compiler's other layout rules are not modelled.
- The commented-out debug sizes for the code sections (lines 63-65) are not modelled.
- The speculative-execution engine exercised by tests/x86_tests/unit_model.py is not modelled. That covers contracts, tracers, checkpoints and rollback. Its sources are not part of this model, and the expected traces come from a CPU emulator. Only the displacement of the faulting load is used, as a check on the layout.
