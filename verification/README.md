# SymEx-VP: a verified model

SymEx-VP is a RISC-V RV32IMAC virtual prototype whose instruction-set simulator computes on
concolic values: a concrete bit-vector with an optional term over the symbolic input. This
project models its core and states what it guarantees. Every statement is for all inputs, all
runs or all interleavings.

| Part | Files |
|---|---|
| Concolic interpreter, its plain reference, and the path theorems | `Bits`, `Concolic`, `Isa`, `ConcolicIss`, `ConcolicOps`, `PlainIss`, `SamePath`, `ConcolicSound`, `PathTheorems`, `Provenance`, `MemoryTheorems` |
| The simulator object, with registers and memory changed in place | `IssObject` |
| Decoder, compressed expansion, and the manual's compressed semantics | `Decode`, `DecodeExact`, `FetchedFields`, `Compressed`, `CompressedProof`, `CompressedEffect` |
| CSRs, traps, interrupts, nesting, whole-machine invariants | `Csr`, `CsrTheorems`, `CsrAccesses`, `Trap`, `TrapTheorems`, `Nesting`, `ControlRuns`, `Reachable`, `Platform`, `PlatformTheorems`, `MachineRuns` |
| Bus lock, LR/SC and AMO | `BusLock`, `Atomics`, `AtomicsProof` |
| Sv32 walk and look-aside buffer | `Mmu`, `MmuTheorems` |
| Peripherals | `Plic`, `PlicTheorems`, `Uart`, `Slip`, `RealTimer` |
| Symbolic input formats | `SymbolicFormat` |

How the parts fit together:

- `ConcolicIss` is generic in the value type. `ConcolicOps.SimOps` plugs in concolic values, and
  `PlainIss` with `ConcolicOps.RefOps` is an independent interpreter on numbers. A *reading* maps
  a concolic value to a number, either by its concrete part or by its term under an input.
  `SamePath.StepView` says that one step commutes with every reading that keeps the recorded
  branches and the values that must be concrete. Refinement, consistency and the same-path
  theorem are instances of it.
- The interpreter takes the decoder, the CSR file and the trap logic as parameters (`Isa.Sys`).
  `Platform.Hart` supplies the real ones, so every theorem of `PathTheorems` applies to it.
- The classes (`IssObject.Core`, `Trap.Hart`, `BusLock.Lock`, `Mmu.Unit`, `Plic.Controller`,
  `Uart.Fifos`, `Slip.Device`, `RealTimer.Clint`, `SymbolicFormat.Format`) update their fields as
  the code does. Each method equates the new state with a function of the old one, and the
  theorems are about these functions.
- A function that the interpreter and its reference share, or that a method is equated with, has a
  theorem that fixes what it computes without it: bits and quotients (`Bits.BitwiseBits`,
  `ConcolicOps.LogicBits`), fields of a word (`FetchedFields`), a two-level walk in plain arithmetic
  (`MmuTheorems.Sv32`), register contents after traps (`TrapTheorems.TrapRecorded`), values read back
  (`CsrAccesses`), bytes of memory after stores (`MemoryTheorems`, `AtomicsProof.MemoryIsLastStored`),
  and a log kept from the steps alone (`Uart.Logged`).

Where the code departs from its documentation, the model follows the code:

- A C.ADD hint with rd = x0 is decoded as EBREAK, and the RV64 encodings C.SUBW and C.ADDW are
  expanded on RV32. `CompressedProof.ExpansionFaithful` shows these are the only departures from
  the manual's compressed tables, `HintBreaks` gives a concrete word.
- MPP accepts the reserved value 2, and a return to it lets a delegated trap lower the privilege.
  `TrapTheorems.TrapNotBelow` is the exact condition, `ControlRuns.ReservedLevelDrops` the run.
  If such a trap is delegated twice, the assertion at vp/src/core/rv32/iss.cpp:1788 fails;
  `Trap.TrapStops` is the case, and `MachineRuns.MachineNeverBelow` shows that it needs the
  reserved value.
- The buffer's page mask is 32 bits wide, so a hit loses the upper part of a physical address of
  2^32 or more. `MmuTheorems.BufferRefinesWalk` is the exact condition,
  `SecondTranslationDiffers` and `HighSuperpage` show the failure.
- The SLIP decoder looks at the last collected byte instead of a state, so an escape byte followed
  by an escape code in the packet is lost. `Slip.RoundTrip` is the exact condition,
  `AmbiguousExample` a concrete packet.
- A compare value 2^63 ticks ahead makes the tick conversion wrap to a zero duration, which the
  timer's assertion rejects; `RealTimer.ZeroDurationExact` shows that no other distance does.
- A jump through a symbolic register records no condition, so the same-path theorem needs concrete
  jump targets, addresses, code bytes and CSR operands; `PathTheorems.SymbolicTargetEscapes` is a
  run that leaves the path.

## Model

| member | source | states |
|---|---|---|
| PathTheorems.SamePath | vp/src/core/rv32/iss.cpp:385-449 | every input that gives the recorded branch and zero-divisor conditions their recorded truth values drives the plain interpreter through the same pcs to the registers and memory the terms predict |
| PathTheorems.SymbolicTargetEscapes | vp/src/core/rv32/iss.cpp:330-338 | with a symbolic JALR target an input can satisfy the trace and still leave the path |
| PathTheorems.Refinement | vp/src/core/rv32/iss.cpp:239-449 | erasing the terms of any run gives exactly the run of the plain RV32IM interpreter, pc by pc, and all widths are kept |
| PathTheorems.Consistency | vp/src/core/rv32/iss.cpp:102-121 | if every term evaluates to the concrete value beside it under an input, the same holds after any number of steps |
| Provenance.ConcreteRun | vp/src/core/rv32/iss.h:259-262 | a run that starts without symbolic values creates none and records no condition |
| Provenance.NoNewVariables | vp/src/core/rv32/iss.cpp:239-449 | an input variable that no register and no byte mentions occurs in no term and no condition of the run |
| Provenance.SamePaths | vp/src/core/rv32/iss.h:259-262 | inputs that differ only in such a variable satisfy the same recorded conditions |
| SamePath.StepView | vp/src/core/rv32/iss.cpp:1956-1994 | one step commutes with every reading that keeps its trace and its concrete-only operands |
| SamePath.TraceDecides | vp/src/core/rv32/iss.h:259-262 | a run with concrete control values is followed by every reading that gives the recorded conditions their truth values |
| SamePath.ExecDiv | vp/src/core/rv32/iss.cpp:615-696 | DIV, DIVU, REM and REMU commute with every reading that keeps the recorded zero test, the zero-divisor results included |
| SamePath.ExecAmo | vp/src/core/rv32/iss.h:333-347 | an AMO commutes with every reading: alignment trap, bus miss, loaded value and stored value |
| ConcolicSound.ConcolicAgrees | vp/src/core/rv32/iss.cpp:102-121 | the solver operations the simulator uses compute the reference arithmetic under every reading |
| ConcolicSound.LoadReads | vp/src/core/rv32/mem.h:278-298 | a little-endian load of concolic bytes with its extension reads as the plain load, for all five load instructions |
| MemoryTheorems.LoadAfterStore | vp/src/core/rv32/mem.h:278-310 | a load from where a store of its width has just written returns the low bits of the value, extended by sign or zeros |
| MemoryTheorems.LoadElsewhere | vp/src/core/rv32/mem.h:278-310 | a load that shares no address with the store gives what it gave before, its fault included |
| MemoryTheorems.StoreLeaves | vp/src/symex/symbolic_memory.cpp:58-77 | exactly the 1, 2 or 4 addressed bytes change, to the bytes of the value in ascending order |
| MemoryTheorems.RouteExact | vp/src/platform/common/bus.h:40-46 | an access reaches byte `m` exactly if its address lies in the mapped range, is the start plus `m`, and ends inside the memory |
| MemoryTheorems.RouteDisjoint | vp/src/platform/common/bus.h:44-46 | accesses share a byte of the memory exactly if they share an address |
| MemoryTheorems.FaultCauses | vp/src/core/common/trap.h:44-55 | misaligned loads and stores trap with 4 and 6, unmapped ones with 13 and 15, whatever the width |
| ConcolicSound.AmoReads | vp/src/core/rv32/iss.cpp:745-766 | the select terms of the minimum and maximum AMOs read as signed and unsigned minimum and maximum |
| ConcolicOps.MulIs | vp/src/core/rv32/iss.cpp:571-613 | the 64-bit extract computes the low or high word of the true integer product under each signedness |
| ConcolicOps.LogicBits | vp/src/core/rv32/iss.cpp:255-301 | every bit of AND, OR and XOR, and of their AMOs, is the conjunction, disjunction or exclusive or of the operands' bits |
| Bits.BitwiseBits | vp/src/core/rv32/iss.cpp:255-301 | the same for the solver's operation, on numbers of any size |
| ConcolicOps.SignedDivisionExact | vp/src/core/rv32/iss.cpp:615-678 | DIV and REM satisfy dividend = divisor * quotient + remainder modulo 2^32 for all operands, with a remainder smaller than the divisor and of the dividend's sign |
| ConcolicOps.UnsignedDivisionExact | vp/src/core/rv32/iss.cpp:639-696 | the same for DIVU and REMU |
| Concolic.ReadBin | vp/src/core/rv32/iss.cpp:239-301 | the assumed homomorphism of the value library: both parts of a result are the operation on the values read |
| IssObject.Core.WriteReg | vp/src/core/rv32/iss.cpp:102-110 | narrow values are zero-extended, 32-bit values stored, wider ones dropped |
| IssObject.Core.Track | vp/src/core/rv32/iss.h:259-262 | only conditions with a symbolic part are recorded, with direction and address |
| IssObject.Core.StoreData | vp/src/symex/symbolic_memory.cpp:58-77 | the byte loop changes exactly the addressed bytes to the slices of the value |
| IssObject.Core.LoadImage | vp/src/symex/symbolic_memory.cpp:27-42 | an image load replaces exactly the addressed range |
| IssObject.Core.ExecDivide | vp/src/core/rv32/iss.cpp:615-696 | the case of the opcode switch does what the step function says, zero-divisor branch and record included |
| IssObject.Core.ExecAmo | vp/src/core/rv32/iss.h:333-347 | load, operation, store and register write in the object's order give the step function's state; traps leave registers and memory alone |
| IssObject.Core.ExecStep | vp/src/core/rv32/iss.cpp:178-198 | fetch, decode, pc update and dispatch on the object equal the step function |
| IssObject.Core.RunStep | vp/src/core/rv32/iss.cpp:1956-1994 | the object after a step, trap or interrupt entry included, is the step function's next state and its trace grows by the step's records |
| IssObject.Core.Run | vp/src/core/rv32/iss.cpp:1996-2005 | one step whatever the status, then steps while it is runnable: the state and the trace are those of the step function followed by the run function |
| DecodeExact.DecodeIsExact | vp/src/core/common/instr.cpp:1371-1920 | a word decodes to an opcode exactly if it carries the fixed bits the encoding tables give the opcode |
| FetchedFields.ValuesAre | vp/src/core/common/instr.h:607-627 | for every word the five immediates and the shift amount are the sums of its fields that the manual's figures give, sign bits included |
| FetchedFields.RegistersNamed | vp/src/core/common/instr.h:534-644 | for every word the register numbers and the CSR address are these fields |
| FetchedFields.OperandsDecoded | vp/src/core/rv32/iss.cpp:191-198 | a fetched word becomes an instruction with these operands, the immediate of its opcode's format, and the size its last two bits give |
| FetchedFields.EvenValueIs | vp/src/core/common/instr.h:607-623 | an even offset is read as its value |
| CompressedProof.ExpansionFaithful | vp/src/core/common/instr.cpp:1144-1364 | for every compressed word an accepted expansion decodes to the returned opcode, and its meaning equals the manual's exactly outside the two deviating families |
| CompressedProof.ExpansionKeeps | vp/src/core/common/instr.cpp:1144-1364 | for every opcode the expansion decodes to the opcode returned with it and carries the operands the expander passes on, and is undefined exactly where the expander makes no instruction |
| CompressedProof.FactoryFaithful | vp/src/core/common/instr.cpp:854-974 | every instruction the factory makes from fitting operands decodes to its mnemonic, and the 32-bit extractors return these operands |
| CompressedProof.MakeIInverse | vp/src/core/common/instr.h:612-614 | the I-format factory and extractors are inverse for every immediate the format holds |
| CompressedProof.MakeSInverse | vp/src/core/common/instr.h:616-618 | the S-format factory and extractors are inverse |
| CompressedProof.MakeBInverse | vp/src/core/common/instr.h:620-623 | the B-format factory and extractors are inverse |
| CompressedProof.MakeJInverse | vp/src/core/common/instr.h:607-610 | the J-format factory and extractors are inverse |
| CompressedProof.JumpAgrees | vp/src/core/common/instr.cpp:814-831 | the C.J immediate equals the manual's bit-by-bit table |
| CompressedProof.BranchAgrees | vp/src/core/common/instr.cpp:833-836 | the compressed branch immediate equals the manual's bit-by-bit table |
| CompressedProof.UpperHalfIgnored | vp/src/core/common/instr.cpp:1366-1369 | the upper half of the fetched word does not influence an accepted expansion |
| CompressedProof.HintBreaks | vp/src/core/common/instr.cpp:1104-1113 | a C.ADD hint with rd = x0 is decoded as EBREAK |
| CompressedEffect.ExpansionEffect | vp/src/core/common/instr.cpp:1366-1369 | for every machine state, executing an expanded word has the effect of the manual's direct semantics, outside the deviating families |
| CsrTheorems.MaskedReadsBack | vp/src/core/rv32/iss.cpp:1443-1535 | after a write to a status register, to mie or mip at any of their three addresses, or to a delegation, inhibit or translation register, software sees the old bits outside the write mask and the written ones inside |
| CsrTheorems.SetsAndClears | vp/src/core/rv32/iss.cpp:491-569 | CSRRS and CSRRC and their immediate forms return the old value and set or clear exactly the operand bits inside the mask, as software sees the register; the swaps are in `CsrAccesses.SwapMasked` |
| CsrTheorems.AccessGuarded | vp/src/core/rv32/iss.cpp:1325-1334 | a CSR instruction succeeds only at a sufficient level and never writes a read-only register; without a write it changes nothing but the clock copies; what it returns is `CsrAccesses.AccessReturns` |
| CsrAccesses.AccessSucceeds | vp/src/core/rv32/iss.cpp:477-569 | a CSR instruction succeeds exactly if the level suffices, a write does not meet a read-only address, and the register can be read; so it never fails after writing rd |
| CsrAccesses.AccessReturns | vp/src/core/rv32/iss.cpp:477-569 | rd is written exactly if it is not x0, with what software read at the address before the instruction |
| CsrAccesses.SwapWhole | vp/src/core/rv32/iss.cpp:477-489 | after CSRRW and CSRRWI software reads the whole operand in the scratch, cause, trap value and memory protection registers |
| CsrAccesses.SwapMasked | vp/src/core/rv32/iss.cpp:477-489 | in a masked register software reads the operand inside the write mask and the old bits outside |
| CsrAccesses.SwapTwice | vp/src/core/rv32/iss.cpp:477-489 | swapping a register with such a CSR twice gives both values back |
| CsrAccesses.OthersUnchanged | vp/src/core/rv32/iss.cpp:1443-1560 | a CSR write changes what software reads at an address only if both name the same register, or mstatus.tvm opens or closes satp |
| CsrAccesses.VectorsReadBack | vp/src/core/rv32/iss.cpp:1443-1535 | xtvec takes every bit but bit 1 |
| CsrAccesses.EpcReadsBack | vp/src/core/rv32/iss.cpp:1443-1535 | xepc takes every bit but bit 0 |
| CsrAccesses.FloatReadsBack | vp/src/core/rv32/iss.cpp:1443-1560 | fflags, frm and fcsr show the parts of one register, and a write to one leaves the other's bits |
| CsrAccesses.InstretReadsBack | vp/src/core/rv32/iss.cpp:1443-1560 | the halves of minstret are written and read back separately |
| CsrAccesses.CountersGated | vp/src/core/rv32/iss.cpp:1346-1358 | after writes to the counter enables, supervisor mode reads the counters mcounteren selects and user mode those both select |
| CsrAccesses.ClocksShown | vp/src/core/rv32/iss.cpp:1367-1392 | time and mcycle show the current clocks, split into halves |
| PlatformTheorems.SwapExecuted | vp/src/core/rv32/iss.cpp:477-529 | executing CSRRW or CSRRWI at a sufficient level puts what software read into rd, leaves rs1 or the immediate in the register, and moves on |
| PlatformTheorems.ReadExecuted | vp/src/core/rv32/iss.cpp:491-569 | executing CSRRS or CSRRC with x0, or their immediate forms with zero, only reads; where it cannot, it is an illegal instruction |
| PlatformTheorems.CallTraps | vp/src/core/rv32/iss.cpp:456-470 | ECALL traps with cause 8, 9 or 11 by its level, and with its own address |
| PlatformTheorems.SatpGate | vp/src/core/rv32/iss.cpp:1410-1414 | satp can be read exactly while bit 20 of mstatus, as software sees it, is clear |
| PlatformTheorems.WaitGate | vp/src/core/rv32/iss.cpp:1222-1231 | WFI is illegal in user mode, and in supervisor mode exactly with bit 21 of mstatus |
| PlatformTheorems.InstretCounts | vp/src/core/rv32/iss.cpp:1931-1994 | over any run that writes neither minstret nor mcountinhibit, minstret has advanced by the number of steps modulo 2^64, trapping and interrupted steps included, or not at all if inhibited |
| Trap.Hart.SwitchToTrapHandler | vp/src/core/rv32/iss.cpp:1871-1929 | the field-by-field entry equals the entry function: pc, xepc, xIE, xPIE, xPP, vectored target |
| Trap.Hart.ReturnFromTrapHandler | vp/src/core/rv32/iss.cpp:1675-1713 | the field-by-field return equals the return function |
| Trap.Hart.PrepareTrap | vp/src/core/rv32/iss.cpp:1765-1793 | the pc goes back and the fields become those of the trap function, whose registers `TrapTheorems.TrapRecorded` gives; the assertion fails exactly at the reserved level with both delegation bits set |
| TrapTheorems.TrapRecorded | vp/src/core/rv32/iss.cpp:1765-1793 | after a trap the target mode's bank holds cause, value and the address of the instruction, the other banks and all other status bits are as before, and the handler starts at the vector's base |
| TrapTheorems.InterruptRecorded | vp/src/core/rv32/iss.cpp:1795-1929 | after an interrupt the bank holds its cause number with bit 31 and the interrupted pc, xtval is kept, and the handler starts at the base, plus four bytes per cause exactly in vectored mode |
| TrapTheorems.LineIsCause | vp/src/core/rv32/iss.cpp:1795-1845 | each of the nine cause numbers is the position of its bit in mie and mip |
| TrapTheorems.Delegable | vp/src/core/rv32/csr.h:329-348 | medeleg can delegate every cause the hart raises, and sedeleg all but the calls from supervisor and machine mode |
| TrapTheorems.ViewsAre | vp/src/core/rv32/csr.h:329-348 | which of the nine interrupts each view of mie and mip shows and lets software write |
| TrapTheorems.TakenExactly | vp/src/core/rv32/iss.cpp:1847-1869 | an interrupt is taken exactly if one is enabled and pending and its mode is above the running level, or at it with the mode's enable set |
| Trap.Hart.TakeInterrupt | vp/src/core/rv32/iss.cpp:1795-1869 | computing, preparing and entering an interrupt, with the throw never reached |
| Trap.PendingHasFirst | vp/src/core/rv32/iss.cpp:1795-1845 | while mie, mip and the interrupt delegation registers lie inside MIE_MASK, one of the nine tested bits is found for every interrupt computed as pending |
| Trap.StrayBitThrows | vp/src/core/rv32/iss.cpp:1822-1823 | with a stray bit in mie and mip the throw would be reached |
| ControlRuns.SignalledBit | vp/src/core/rv32/iss.cpp:1715-1763 | an interrupt source sets or clears its own pending bit and no other |
| ControlRuns.SignalledSound | vp/src/core/rv32/iss.cpp:1715-1763 | the interrupt sources keep mip inside MIE_MASK and leave the privilege alone |
| TrapTheorems.EnterReturn | vp/src/core/rv32/iss.cpp:1871-1929 | entry then return restores pc, enables and all other CSRs but xPIE, xPP and xepc, and restores the privilege exactly if xPP can hold it |
| TrapTheorems.TrapNotBelow | vp/src/core/rv32/iss.cpp:1765-1793 | a trap goes to a mode at least as privileged exactly unless it is delegated out of the reserved level |
| TrapTheorems.TargetLeast | vp/src/core/rv32/iss.cpp:1765-1793 | the target is the least privileged mode that delegation allows and that is not below the interrupted one |
| TrapTheorems.HandlerShielded | vp/src/core/rv32/iss.cpp:1871-1929 | right after entry only an interrupt for a more privileged mode can be taken |
| TrapTheorems.ChosenSound | vp/src/core/rv32/iss.cpp:1847-1869 | the interrupt taken is enabled, pending and deliverable to the mode delegation sends it to, and that is the mode entered |
| TrapTheorems.ChosenHighest | vp/src/core/rv32/iss.cpp:1795-1869 | if any interrupt can be taken, one is, and it outranks every other takeable one by mode and then by priority |
| TrapTheorems.SetSound | vp/src/core/rv32/iss.cpp:1460-1523 | no CSR write makes an xepc odd, sets bit 1 of an xtvec, or leaves a bit outside MIE_MASK in mie, mip, mideleg or sideleg |
| Nesting.Unwinds | vp/src/core/rv32/iss.cpp:1675-1713 | a handler of any nesting depth that restores its saved xstatus and xepc leaves pc, privilege and all interrupt enables as it found them |
| Nesting.ScriptKeeps | vp/src/core/rv32/iss.cpp:1325-1334 | software of one level ends at that level and cannot touch the enables of higher modes |
| Nesting.RestoredByWrites | vp/src/core/rv32/iss.cpp:1470-1488 | the restore is a pair of ordinary CSR writes at the handler's privilege |
| ControlRuns.NeverBelow | vp/src/core/rv32/iss.cpp:1765-1869 | over any sequence of jumps, CSR writes, traps, polls, returns and interrupt signals that never writes the reserved MPP value, no trap or interrupt goes to a less privileged mode |
| MachineRuns.MachineNeverBelow | vp/src/core/rv32/iss.cpp:1956-2005 | in every run of the platform's hart whose instructions never leave the reserved value in MPP, each trap and each interrupt goes to a mode not below the interrupted one, and the assertion on the privilege level holds |
| ControlRuns.ReservedLevelDrops | vp/src/core/rv32/iss.cpp:1675-1687 | a run that writes it and returns does lower the privilege on a delegated trap |
| Reachable.RunKeeps | vp/src/core/rv32/iss.cpp:1956-1994 | for any control part that keeps its invariant, every reachable step boundary has x0 zero, an even pc and the invariant |
| Platform.EveryStateSound | vp/src/core/rv32/iss.cpp:1956-1994 | for the real decoder, CSR file and trap logic: in every reachable state x0 is zero, pc and every xepc are even, xtvec bit 1 is clear, and mie, mip, mideleg and sideleg hold nothing outside MIE_MASK |
| BusLock.Lock.Acquire | vp/src/platform/common/bus.h:130-138 | the lock is taken exactly if it is free or already owned, and an attempt that must wait changes nothing |
| BusLock.Lock.Release | vp/src/platform/common/bus.h:140-145 | only the owner's release frees the lock |
| BusLock.Lock.WaitForAccessRights | vp/src/core/common/bus_lock_if.h:38-41 | access is granted exactly if nobody else holds the lock |
| AtomicsProof.StoreConditionalAtomic | vp/src/core/rv32/mem.h:320-337 | a successful SC has an earlier LR of the same hart and address with no store by anybody and no foreign bus access in between; memory holds the word read right before it, and the stored bytes right after |
| AtomicsProof.StoreWrites | vp/src/core/rv32/mem.h:300-337 | a store, AMO store, successful SC or peripheral write sets the addressed bytes and no others, and no other step changes memory |
| AtomicsProof.MemoryIsLastStored | vp/src/symex/symbolic_memory.cpp:58-77 | over any interleaving each byte is what the last store to it wrote, or the initial one |
| AtomicsProof.ReadsLastStored | vp/src/core/rv32/mem.h:278-337 | every byte that a load, LR or AMO reads in a run is what the last store before it wrote there |
| AtomicsProof.AmoAtomic | vp/src/core/rv32/mem.h:312-319 | the store of an AMO finds the lock held and memory as its own load read it, with nothing in between, and leaves the stored bytes there |
| AtomicsProof.OthersWait | vp/src/platform/common/bus.h:114-121 | while a hart holds the lock no other hart or peripheral reaches memory |
| AtomicsProof.CounterBetweenSteps | vp/src/core/rv32/iss.cpp:698-705 | between steps an owner's counter is in 1..16 |
| AtomicsProof.CounterFalls | vp/src/core/rv32/iss.cpp:1931-1943 | while the lock stays held every finished step lowers the counter by one, and a further LR does not raise it |
| AtomicsProof.LockReleased | vp/src/core/rv32/iss.h:289-292 | the lock is released at least once within as many further steps as the counter says, at most 16, whatever the hart executes |
| AtomicsProof.IdentityIsStricter | vp/src/core/rv32/mem.h:325-337 | SC fails for an equal address held by another value object |
| Mmu.Unit.WalkTables | vp/src/core/common/mmu.h:176-277 | the loop equals the recursive walk, which `MmuTheorems.WalkIsSv32` gives in plain arithmetic, and stores A and D exactly in the leaf |
| MmuTheorems.WalkIsSv32 | vp/src/core/common/mmu.h:176-262 | for every configuration, table and address the walk is the two-level algorithm of section 4.3.2 of the privileged manual: table addresses, permissions, alignment, A/D faults, fault causes, 4 KiB and 4 MiB frames with their offsets |
| MmuTheorems.FoundIs | vp/src/core/common/mmu.h:256-262 | a translated address is the leaf's frame plus the offset in its page or superpage |
| MmuTheorems.DistanceKept | vp/src/core/common/mmu.h:256-262 | two addresses mapped by the same leaf have physical addresses exactly as far apart |
| Mmu.Unit.Translate | vp/src/core/common/mmu.h:112-145 | bare and machine mode, effective privilege, hit, fill and fault as the translation function says |
| Mmu.Unit.FlushTlb | vp/src/core/common/mmu.h:108-110 | every entry is invalid afterwards |
| MmuTheorems.MarksInvisible | vp/src/core/common/mmu.h:239-254 | the A/D bits one walk stores change no other walk, for any address, access type and mode |
| MmuTheorems.PageUniform | vp/src/core/common/mmu.h:256-262 | a page is translated as a whole: same leaf, same frame, offset added |
| MmuTheorems.FilledGood | vp/src/core/common/mmu.h:138-144 | a filled entry holds the walk's frame and its leaf has A, and D for stores, set |
| MmuTheorems.CoherentAfter | vp/src/core/common/mmu.h:112-145 | every translation keeps every entry of the buffer coherent with the tables |
| MmuTheorems.BufferRefinesWalk | vp/src/core/common/mmu.h:112-145 | after any sequence of translations since a flush, the next equals a fresh walk over the original tables exactly unless it hits a physical address of 2^32 or more |
| MmuTheorems.SecondTranslationDiffers | vp/src/core/common/mmu.h:134-144 | such an address is translated correctly the first time and wrongly the second |
| Plic.Next | vp/src/platform/common/fe310_plic.h:129-151 | the selected interrupt is the candidate of highest priority and then smallest number, or 0 if there is none |
| Plic.Controller.NextPending | vp/src/platform/common/fe310_plic.h:129-151 | the scanning loop computes that selection, with or without the threshold |
| Plic.Controller.Claim | vp/src/platform/common/fe310_plic.h:165-180 | a claim returns the selection and clears its pending bit only |
| Plic.Controller.WritePriority | vp/src/platform/common/fe310_plic.h:159-163 | after a priority write every usable priority is the smaller of its value and the maximum, and the word past the last one is as written |
| PlicTheorems.DrainInOrder | vp/src/platform/common/fe310_plic.h:165-180 | repeated claims return claimable interrupts without repetition, by descending priority and then ascending number, and then 0 forever |
| PlicTheorems.DrainComplete | vp/src/platform/common/fe310_plic.h:165-180 | every claimable interrupt is returned |
| PlicTheorems.ThresholdGates | vp/src/platform/common/fe310_plic.h:203-205 | the thresholded check is true exactly when the next claim's priority exceeds the threshold, and names that claim |
| Uart.BoundedBuffers | vp/src/platform/common/abstract_uart.cpp:125-221 | over every interleaving: free slots, queue and operations in flight sum to 8, no queue exceeds 8, and bytes sent and read are prefixes of those accepted and received, with the exact remainder in the queues |
| Uart.RegistersAre | vp/src/platform/common/abstract_uart.cpp:133-172 | in every run rxdata is the next received byte not yet read or the empty flag, txdata the full flag exactly with eight bytes waiting, and the pending bits compare the bytes waiting with the watermarks, all from the steps alone |
| Uart.SendsNext | vp/src/platform/common/abstract_uart.cpp:206-221 | the device is handed the low bytes of the writes that found room, in order, the next one each time |
| Uart.PopFindsByte | vp/src/platform/common/abstract_uart.cpp:206-221 | the transmitting thread never takes a byte from an empty queue |
| Uart.StepSound | vp/src/platform/common/abstract_uart.cpp:125-131 | every critical section and semaphore operation keeps the invariant |
| Uart.Fifos.ReadRxdata | vp/src/platform/common/abstract_uart.cpp:139-149 | a read returns and removes the front byte, or the empty flag |
| Uart.Fifos.WriteTxdata | vp/src/platform/common/abstract_uart.cpp:189-199 | a write appends the low byte unless the queue is full |
| Slip.RoundTrip | vp/src/platform/common/slip.cpp:128-175 | for every stream of non-empty packets the decoder fed the encoder's output emits the same packets if and only if no packet has 0333 directly followed by 0334 or 0335 |
| Slip.WireBytes | vp/src/platform/common/slip.cpp:128-149 | on the line 0300 is sent as 0333 0334, 0333 as 0333 0335, every other byte as itself, and 0300 ends the packet |
| Slip.LineIsFramed | vp/src/platform/common/slip.cpp:128-149 | inside a packet on the line 0300 does not occur and 0333 is always followed by one of the two codes |
| Slip.SpecialBytes | vp/src/platform/common/slip.cpp:45-48 | the encoding of a packet with both special bytes, in numbers |
| Slip.AmbiguousExample | vp/src/platform/common/slip.cpp:158-167 | a concrete packet that comes back as one byte |
| Slip.Device.WriteData | vp/src/platform/common/slip.cpp:151-175 | the in-place decoder equals the decoding function, and every index is inside the allocated buffer across growth and shrink |
| Slip.Device.SendPacket | vp/src/platform/common/slip.cpp:115-126 | the collected packet is sent whole and a grown buffer shrinks to one step |
| Slip.Device.HandleInput | vp/src/platform/common/slip.cpp:128-149 | the encoder's loop pushes exactly the escaped packet and the end byte |
| SymbolicFormat.FormatConserved | vp/src/symex/symbolic_format.cpp:67-194 | any fields whose widths add up to a positive multiple of 8 are repacked into that many bytes, with every bit in its place under every input |
| SymbolicFormat.FieldWidth | vp/src/symex/symbolic_format.cpp:67-124 | a field is accepted exactly if its list is empty or holds as many bytes as the width needs, and its value has exactly the field's width |
| SymbolicFormat.FieldReads | vp/src/symex/symbolic_format.cpp:67-124 | a field's value reads as the low bits, as many as its width, of the bytes given or of the symbolic bytes |
| SymbolicFormat.BitsConserved | vp/src/symex/symbolic_format.cpp:156-194 | the bytes joined in order equal the fields joined in order, bit for bit and under every input, and their count is the total width divided by 8 |
| SymbolicFormat.ToByteSize | vp/src/symex/symbolic_format.cpp:39-52 | the least number of bytes that holds the bits |
| SymbolicFormat.Format.GetValues | vp/src/symex/symbolic_format.cpp:126-153 | each field's value once, in order; failure exactly for a malformed field |
| SymbolicFormat.Format.GetBytes | vp/src/symex/symbolic_format.cpp:156-194 | the two loops compute the repacked bytes, the width assertion included |
| RealTimer.Callback | vp/src/core/common/timer.cpp:50-78 | the chunked loop requests exactly 1000 d + 999 ((d - 1) / 999999) ns, each sleep within nanosleep's bound, and fails its assertion exactly for d = 0 |
| RealTimer.FiresOnTime | vp/src/core/common/real_clint.cpp:111-131 | at expiry the recomputed mtime has reached the compare value exactly if the distance is at most (2^64 - 1) / 30 |
| RealTimer.ZeroDurationExact | vp/src/core/common/real_clint.cpp:106-109 | the timer is given a zero duration, which fails its assertion, for exactly one positive distance: 2^63 ticks |
| RealTimer.Clint.PostWriteMtimecmp | vp/src/core/common/real_clint.cpp:111-131 | a compare write raises the interrupt now or starts a timer for the distance |
| RealTimer.Clint.Interrupt | vp/src/core/common/real_clint.cpp:156-164 | the expiry handler raises exactly the interrupts whose compare value is reached |

## Left out

- Clover, KLEE and the solver: concolic values are pairs with an evaluation function; that the library's operations act on both parts alike is assumed (`Concolic`).
- Clover's lazily initialised memory: memory is an array of bytes that all have a value.
- LR.W and SC.W in the interpreter: success depends on the identity of a shared pointer; they are modelled in `Atomics`. In the interpreter they count as opcodes the switch does not execute.
- Translation in the interpreter, several bus targets, and DMI: the interpreter runs with bare addressing on one memory port.
- misa: fixed to the extensions the constructor sets, so checks for C, M, A, S and U always pass.
- ECALL and CSR accesses at the reserved privilege level abort the program; the interpreter treats ECALL there like user mode.
- Trap.Trapped: at the failed assertion of `prepare_trap` the source stops; the function, and with it the interpreter, goes on in user mode there.
- Floating point, SRET, URET and SFENCE.VMA dispatch: disabled in the source; supervisor and user returns are modelled as functions.
- Mcycle and mtime: read from clock fields that change between steps.
- Compressed.Expand: the instruction word is a value that is replaced, not an object overwritten in place.
- Timing, quantum keeping, the SystemC kernel and TLM payloads: a step is the code between two waits, or finer.
- IssObject.Core.Run: the loop also ends when the given arrivals are used up.
- WFI waiting: only its release of the reservation and its illegal-instruction checks.
- Liveness of lock waiters: nothing is said about who gets the lock next.
- Locks under translation: a walk that sets A/D bits unlocks the bus in the middle of an AMO; `Atomics` has translation off.
- Sv39 to Sv64, which satp.mode of this hart cannot select; page table entries are records of their fields, and all reachable page table words are writable.
- Mmu.WalkFrom: a failed page table read reports the table address itself, and the check for sign-extended addresses is dropped, since it always passes for Sv32.
- Buffer behaviour across satp writes and page table edits: the hart does not flush on them.
- Multi-core PLIC and the completion path's assertion on the interrupt flag; pending and enable bits are arrays of booleans rather than packed words.
- UART shutdown, poll and signal handling; the tun device; realloc failure.
- Uart.Next: mutexes are taken as whole critical sections.
- The byte order in which the value library builds a constant from bytes: a parameter of `SymbolicFormat`.
- Plic.Controller.WritePriority: one word at a time.
- DecodeExact.PatternOf: floating-point, RV64 and undispatched privileged encodings are not given patterns.
- Constrained symbolic fields: the source rejects them; the bencode parser is not modelled.
- mtime writes: the source ignores them.
- The clock is assumed to stay below 2^63 ns.
- GDB server, ELF loading, the remaining peripherals and `InstructionBuffer`.
