# A verified model of CITC OS

CITC OS is a small Linux distribution with its own init system, package manager, audio server,
compositor, terminal, message bus and a Windows compatibility layer with a software Direct3D 11. This
project models the algorithms among these programs that carry the most logic, and proves what the
system relies on them for.

| part of the system | modules | main results |
|---|---|---|
| Shader back end: an SM4 bytecode interpreter and a compiler from the same bytecode to SPIR-V | `Sm4`, `ShaderVm`, `ControlFlow`, `StructuredMachine`, `ControlCases`, `Assembly`, `MachineLimits`, `Spirv`, `SpirvCode`, `SpirvFormat`, `SpirvBuilder`, `SpirvTypes`, `TypeCorrectness`, `SpirvInterface`, `Preservation` | the compiler preserves meaning; assembled instructions do what their operands and test bits say; the token machine with its scans follows the syntax tree of every block-structured program step by step, and halts exactly when the big-step semantics has an outcome; every module that fits the buffer is a well-formed stream; which modules obey the typing rules, exactly |
| Service manager of the init system | `Services`, `Lifecycle`, `StartOrder`, `ServiceManager`, `BootOutcome` | the start order is topological and leaves out exactly the services that cannot start; which services are up after a boot, exactly; lifecycle invariant over all runs; what every start, stop, exit and activation leaves behind |
| Package installer | `Packages`, `PackageProofs`, `PackageLimits` | every database on the way is dependency-closed; success means the whole closure is installed; cycles are never installed; installable requests succeed; a chain is installed exactly up to eleven links |
| Terminal emulator | `TerminalSpec`, `Terminal`, `TerminalCodes` | the 25x80 buffer is the last page of a document that never scrolls; every control sequence, from its bytes to its effect |
| Rasterizer | `Raster`, `DepthOrder`, `RasterLaws` | a triangle covers exactly the pixels whose centres lie in it; the bounding-box scan equals a scan of the whole target; the depth buffer holds minima; exact condition for the order of the triangles not to matter |
| Audio server | `Mixer`, `Ring`, `AudioServer` | per-stream first-in first-out trace; the mix of every sample a client wrote; how much a run of mixes plays; exact condition for the documented clamp |
| Compositor | `Desk`, `DeskLaws`, `HitTest`, `DeskCases`, `Compositor` | a run keeps the links between surfaces and windows if and only if its focus clicks are harmless; a destroyed surface's window stays unused if and only if no event hits it; hit test versus painting, exactly; what every request makes of the screen |
| Protocol framing | `Framing` | any message list sent and received under any pattern of partial and interrupted calls arrives whole |
| PE loader | `Relocation`, `RelocTable` | relocating an image moves exactly the words that the bytes of its table list; relocation composes and can be undone; the walk ends on any bytes |
| Message bus | `Bus` | unique names over all runs; who holds a name, from the history of the run; every message routed exactly once |

Where the program works by changing things step by step, the model does so too: classes with fields,
arrays and loops, proved against functions on values. What those functions mean is then proved from the
outside: from assembled tokens, typed bytes, the words of a module, the bytes of a table, the samples a
client wrote.

## Modelling decisions

- Float arithmetic in the shader back end is an arbitrary record of functions on 32-bit words (`Sm4.Fpu`),
  so the theorems hold for every arithmetic; where an operation needs something of it, the condition is
  stated. In the rasterizer floats are real numbers.
- Calls into the operating system are parameters: what a fork returns (`Services.Launch`), what a
  download yields (`Packages.World`), what a read or write does (`Framing.Io`).
- Strings stand for C strings without their terminator. Integers are unbounded except where the
  program's width matters, where the wrap-around is written out.

Places where the code does something other than its comments say or a reader would expect; the model
follows the code:

- The mixer is documented as one clamped sum; it clamps after every stream. `Mixer.ThreeMayDiffer` gives
  a difference and `Mixer.MixesAsDocumentedExactly` says exactly when there is none.
- The forward scan has a branch for an IF that ends without an ELSE; another branch takes that token first.
  The semantics in `ControlFlow` says where such an IF really goes: into the else-part of the IF around it, or
  to the end of the program. `ControlCases.IfWithoutElse` says exactly when its scan lands behind its own
  ENDIF, and `ControlCases.UntakenIfSkipsTheRest` is a program that loses an instruction to it.
- Beyond sixteen nested loops a LOOP is not entered, but its ENDLOOP still acts, on the loop around it:
  `MachineLimits.SeventeenthLoopJumpsOut`.
- The compiler has no variable for constant buffers and the like and emits such an operand as ID 0;
  `TypeCorrectness.ObeysTypesExactly` says that these are exactly the modules that break the typing rules.
- The loop counter bounds each loop, but all loops share it. `ControlFlow.LoopIsBounded` has the bound for
  loops that do not nest, and `ControlCases.NestedLoopsDiverge` shows two nested loops that never end.
- One-shot dependencies are documented to have finished; `Services.DependencyTestExactly` shows that they
  never hold a service back, and `BootOutcome.OneshotMayBeUnfinished` is a boot where one has not finished.
- Services of type NOTIFY are never set to RUNNING; `BootOutcome.NotifyDependentNeverStarts` shows that what
  depends on one never starts.
- Starting a service is guarded against RUNNING only; `Services.StartIsSafeExactly` says what is missing.
- A focus click moves windows without telling the surfaces; `Desk.FocusKeepsLinksExactly` says when that is
  harmless, and `DeskCases.FocusMayBreakLinks` is a run where it is not.
- Hidden windows without a surface are reused, but a destroyed surface leaves its number on its window.
  Such a window stays unused exactly as long as no event reaches it through a surface that names it
  (`Desk.DestroyedWindowStaysExactly`). That cannot happen while clicks are harmless
  (`Desk.DestroyedWindowStays`); `DeskCases.DestroyedWindowMayBeReused` is a run with one click that lets it.
- Where panels overlap, the pointer takes the lowest and the painter shows the highest;
  `HitTest.HitIsPaintedLastExactly` has the condition and `DeskCases.HitMayMissThePaint` such a run.
- Registration compares full service names but stores cut ones; `ServiceManager.LongNamesCollide` shows two
  names that end up as one.

## Model

| member | source | states |
|---|---|---|
| `ShaderVm.ScanToMatching` | wcl/src/dlls/d3d11/dxbc.c:342-370 | the token loop returns what the recursive scan with a nesting depth defines, on any tokens |
| `ShaderVm.Execute` | wcl/src/dlls/d3d11/dxbc.c:394-692 | the interpreter loop, cut after any number of instructions, has the registers of that many machine steps, and has finished exactly when the machine has |
| `ShaderVm.RunAdds` | wcl/src/dlls/d3d11/dxbc.c:409-692 | running n and then k instructions is running n + k |
| `ShaderVm.RunHalts` | wcl/src/dlls/d3d11/dxbc.c:409-692 | once the machine has stopped, more steps change nothing |
| `ControlFlow.ScanStep` | wcl/src/dlls/d3d11/dxbc.c:342-370 | one step of the scan over each kind of instruction, as seen from the syntax |
| `ControlFlow.DecodedOpcode` | wcl/src/dlls/d3d11/dxbc.c:409-692 | the instruction that executes and the opcode that the scan looks at agree on what opens and closes a block |
| `ControlFlow.ScanPast` | wcl/src/dlls/d3d11/dxbc.c:342-370 | the scan passes over any complete block of structured code as if it were not there, at any depth and for any target |
| `ControlFlow.ScanOver` | wcl/src/dlls/d3d11/dxbc.c:342-370 | the same for the blocks of the big-step semantics |
| `ControlFlow.ScanAdvances` | wcl/src/dlls/d3d11/dxbc.c:342-370 | a scan always moves forward or ends at the end of the code |
| `ControlFlow.BlockEndsWithin` | wcl/src/dlls/d3d11/dxbc.c:612-681 | breaks stay within loops, and a skip that starts in a loop never lands in an ELSE outside it |
| `ControlFlow.SimulateBlock` | wcl/src/dlls/d3d11/dxbc.c:612-681 | from the start of any structured block, at any loop depth, the token machine reaches the state that the big-step outcome describes; where the semantics needs more iterations, it runs for at least as many steps |
| `ControlFlow.SimulateStmt` | wcl/src/dlls/d3d11/dxbc.c:612-681 | the same for one statement |
| `ControlFlow.SimulateIf` | wcl/src/dlls/d3d11/dxbc.c:612-635 | an IF without ELSE is its body when taken; untaken, its scan leaves for the next ELSE at its own level |
| `ControlFlow.SimulateBranch` | wcl/src/dlls/d3d11/dxbc.c:612-635 | IF jumps behind the ELSE or falls through to an ELSE that jumps behind the ENDIF; a stray skip from the then-part enters the else-part |
| `ControlFlow.SimulateLoop` | wcl/src/dlls/d3d11/dxbc.c:637-681 | LOOP, ENDLOOP, BREAK and BREAKC with the loop stack and the one counter that all loops share |
| `ControlFlow.TokensImplementTree` | wcl/src/dlls/d3d11/dxbc.c:394-692 | whenever the big-step semantics of a structured program has an outcome, the token machine halts with its registers; whenever it needs more iterations, the machine is still running after at least that many steps |
| `ControlFlow.HaltsExactly` | wcl/src/dlls/d3d11/dxbc.c:394-692 | the token machine halts on a program and registers if and only if the semantics has an outcome for them |
| `ControlFlow.LoopIsBounded` | wcl/src/dlls/d3d11/dxbc.c:645-656 | a loop without inner loops enters its body at most 1025 times |
| `ControlFlow.FlatProgramsHalt` | wcl/src/dlls/d3d11/dxbc.c:394-692 | every program whose loops do not nest halts with the registers of the semantics |
| `StructuredMachine.ScanToElse` | wcl/src/dlls/d3d11/dxbc.c:342-370 | a scan for ELSE leads to the else-part of the nearest then-part around, out of any loops in between, or to the end |
| `StructuredMachine.ScanBehindLoop` | wcl/src/dlls/d3d11/dxbc.c:342-370 | a scan for ENDLOOP leads behind the nearest loop around, or to the end |
| `StructuredMachine.StepOutMatches` | wcl/src/dlls/d3d11/dxbc.c:628-656 | ELSE, ENDIF and ENDLOOP do what the end of a block does in the tree, whatever is on the loop stack |
| `StructuredMachine.StepInMatches` | wcl/src/dlls/d3d11/dxbc.c:425-681 | every other instruction does what its statement does in the tree |
| `StructuredMachine.TokensFollowTree` | wcl/src/dlls/d3d11/dxbc.c:394-692 | for every block-structured program, without any condition on nesting, the token machine and the tree machine have the same registers, counter and status after every number of steps |
| `ControlCases.IfWithoutElse` | wcl/src/dlls/d3d11/dxbc.c:354-364 | a scan from an IF without ELSE stops right behind its ENDIF if and only if nothing follows that ENDIF |
| `ControlCases.UntakenIfSkipsTheRest` | wcl/src/dlls/d3d11/dxbc.c:612-626 | a program whose untaken IF without ELSE skips the instruction behind it |
| `ControlCases.NestedLoopsDiverge` | wcl/src/dlls/d3d11/dxbc.c:637-656 | two nested loops around a break run for ever, whatever the registers |
| `Assembly.SourceReads` | wcl/src/dlls/d3d11/dxbc.c:186-283 | a source operand written from its bit fields, with any swizzle, selection, register file, constant buffer or immediate, reads the lanes it names, and the decoder ends right behind it |
| `Assembly.TargetStores` | wcl/src/dlls/d3d11/dxbc.c:286-335 | a target register takes exactly the lanes of its mask, and no other register changes |
| `Assembly.ConditionDecodes` | wcl/src/dlls/d3d11/dxbc.c:612-681 | an IF or BREAKC is decoded with the test that bit 18 of its token states |
| `Assembly.IfStep` | wcl/src/dlls/d3d11/dxbc.c:612-626 | if_nz falls through when the first lane of its operand is not zero and if_z when it is zero; otherwise control goes where the scan for ELSE leads |
| `Assembly.BreakcStep` | wcl/src/dlls/d3d11/dxbc.c:666-681 | breakc_nz leaves its loop when that lane is not zero and breakc_z when it is zero; otherwise it does nothing |
| `Assembly.AluDecodes` | wcl/src/dlls/d3d11/dxbc.c:425-608 | the tokens of each of the 14 operations, with any target and operands, decode to that operation on them |
| `Assembly.AluStep` | wcl/src/dlls/d3d11/dxbc.c:425-608 | executing them stores the result of the operands' values through the mask, changes nothing else and goes on behind the instruction |
| `Assembly.AluLanes` | wcl/src/dlls/d3d11/dxbc.c:425-608 | each lane of a result: componentwise, or the same dot product in every lane |
| `Assembly.FlowDecodes` | wcl/src/dlls/d3d11/dxbc.c:612-692 | the opcodes of control flow decode to their instructions, and those from 88 on to none |
| `MachineLimits.EmptyLoopSpins` | wcl/src/dlls/d3d11/dxbc.c:637-656 | an empty loop passes its ENDLOOP 1025 times, then control is behind it with stack and registers as they were |
| `MachineLimits.SeventeenthLoopJumpsOut` | wcl/src/dlls/d3d11/dxbc.c:637-656 | inside sixteen loops a further empty loop sends control back to the start of the loop around it |
| `MachineLimits.MissingConditionIsGarbage` | wcl/src/dlls/d3d11/dxbc.c:186-283 | a program that ends before the operand of an IF or BREAKC goes on with unwritten memory |
| `MachineLimits.MissingTargetIsSkipped` | wcl/src/dlls/d3d11/dxbc.c:286-326 | an operation without its target does nothing |
| `MachineLimits.MissingOperandIsGarbage` | wcl/src/dlls/d3d11/dxbc.c:186-335 | an operation without its operands stores unwritten memory exactly if its target register exists |
| `Spirv.ParseFlatten` | wcl/src/dlls/d3d11/spirv_emit.c:89-92 | instruction lists whose opcodes fit 16 bits survive encoding: the word counts tile the stream |
| `Spirv.FlattenParse` | wcl/src/dlls/d3d11/spirv_emit.c:89-92 | conversely a stream that parses is the encoding of what it parses to |
| `Spirv.FlattenAppend` | wcl/src/dlls/d3d11/spirv_emit.c:77-92 | emitting two lists one after the other is emitting their concatenation |
| `Spirv.EvalAppend` | wcl/src/dlls/d3d11/spirv_emit.c:517-1006 | evaluating a concatenation is evaluating its parts in turn |
| `Spirv.EvalReturned` | wcl/src/dlls/d3d11/spirv_emit.c:536-540 | nothing behind an OpReturn, and no declaration, changes the state |
| `SpirvFormat.SrcIsConsecutive` | wcl/src/dlls/d3d11/spirv_emit.c:560-646 | reading an operand defines consecutive result IDs |
| `SpirvFormat.AluIsConsecutive` | wcl/src/dlls/d3d11/spirv_emit.c:660-980 | so does every arithmetic operation |
| `SpirvFormat.CodeIsConsecutive` | wcl/src/dlls/d3d11/spirv_emit.c:517-1006 | the code of any token stream defines exactly the IDs between the first free and the next free one, in order |
| `SpirvFormat.ModuleResults` | wcl/src/dlls/d3d11/spirv_emit.c:366-1018 | every ID of a module below the bound is defined exactly once, and none at or above it |
| `SpirvFormat.CodeIsSafe` | wcl/src/dlls/d3d11/spirv_emit.c:517-1018 | opcodes fit, and the last word of emitted code can be taken for an OpReturn only if it is one |
| `SpirvFormat.ModuleIsWellFormed` | wcl/src/dlls/d3d11/spirv_emit.c:394-1018 | a module that fits 4096 words parses back instruction by instruction after the 5-word header (SPIR-V Specification, section 2.3), defines each ID below the patched bound once, and ends in OpReturn, OpFunctionEnd |
| `SpirvTypes.PrologueChecks` | wcl/src/dlls/d3d11/spirv_emit.c:394-515 | declarations, constants and variables obey the typing rules, and every variable has the pointer type that its uses need |
| `SpirvTypes.SrcChecks` | wcl/src/dlls/d3d11/spirv_emit.c:560-646 | reading an operand obeys them and gives a vec4, or no ID exactly if there is no variable for it |
| `SpirvTypes.AluChecks` | wcl/src/dlls/d3d11/spirv_emit.c:660-980 | each operation obeys them and gives a vec4 if and only if its operands are there |
| `TypeCorrectness.InstrChecks` | wcl/src/dlls/d3d11/spirv_emit.c:536-1003 | so does each whole instruction, with its store |
| `TypeCorrectness.ObeysTypesExactly` | wcl/src/dlls/d3d11/spirv_emit.c:366-1018 | a module obeys the typing rules if and only if every instruction translated has a variable or an immediate for each operand that it computes with |
| `SpirvInterface.NamesAreSpelled` | wcl/src/dlls/d3d11/spirv_emit.c:122-127 | the literal strings of the module spell "GLSL.std.450" and "main" (SPIR-V Specification, section 2.2.1) |
| `SpirvInterface.EntryPointListsInterface` | wcl/src/dlls/d3d11/spirv_emit.c:448-464 | the entry point lists exactly the input and output variables that the module declares |
| `SpirvInterface.LocationsAre` | wcl/src/dlls/d3d11/spirv_emit.c:466-490 | each variable has one decoration: input i its location i, an output its register's location, the vertex position the built-in |
| `SpirvInterface.ArithmeticWords` | wcl/src/dlls/d3d11/spirv_emit.c:660-980 | the words of ADD, MUL, MAD, DP4, MIN, MAX and RSQ in numbers, for any operands |
| `SpirvInterface.Dot3Words` | wcl/src/dlls/d3d11/spirv_emit.c:725-762 | those of DP3, with the two shuffles to vec3 |
| `SpirvInterface.MaskWords` | wcl/src/dlls/d3d11/spirv_emit.c:763-916 | those that turn a bvec4 into a mask of all ones or zero |
| `SpirvInterface.ComparisonWords` | wcl/src/dlls/d3d11/spirv_emit.c:763-916 | those of the four comparisons in front of it |
| `SpirvInterface.MovcWords` | wcl/src/dlls/d3d11/spirv_emit.c:943-966 | those of MOVC |
| `SpirvInterface.AccessWords` | wcl/src/dlls/d3d11/spirv_emit.c:560-646 | those of loads, stores, returns, constants and component extraction |
| `SpirvInterface.HeaderWords` | wcl/src/dlls/d3d11/spirv_emit.c:99-119 | the five header words with the bound, the Shader capability, the memory model, and the origin of pixel shaders |
| `SpirvBuilder.Builder.Emit` | wcl/src/dlls/d3d11/spirv_emit.c:77-81 | a word is appended, or dropped when the buffer is full; the buffer is the first 4096 words of everything emitted |
| `SpirvBuilder.Builder.EmitInst` | wcl/src/dlls/d3d11/spirv_emit.c:89-92 | one instruction is appended to the stream |
| `SpirvBuilder.Builder.EmitTypes` | wcl/src/dlls/d3d11/spirv_emit.c:129-214 | the type table, with the IDs that the rest of the compiler uses |
| `SpirvBuilder.Builder.EmitVariables` | wcl/src/dlls/d3d11/spirv_emit.c:217-284 | one variable per input and output with the pointer type it needs |
| `SpirvBuilder.Builder.EmitDecorations` | wcl/src/dlls/d3d11/spirv_emit.c:466-490 | inputs by position, outputs by register, the vertex position as a built-in |
| `SpirvBuilder.Builder.EmitSource` | wcl/src/dlls/d3d11/spirv_emit.c:560-646 | an operand becomes the instructions of `CompileSrc`: a constant, a load, or a widened vec3 position |
| `SpirvBuilder.Builder.EmitAlu` | wcl/src/dlls/d3d11/spirv_emit.c:660-980 | an operation becomes the instructions of `CompileAlu`, and its result ID is returned |
| `SpirvBuilder.Builder.EmitInstr` | wcl/src/dlls/d3d11/spirv_emit.c:536-1003 | operands, operation and store of one instruction |
| `SpirvBuilder.Builder.EmitCode` | wcl/src/dlls/d3d11/spirv_emit.c:517-1006 | the token loop emits the translation of the whole program, for any tokens |
| `SpirvBuilder.Builder.Append` | wcl/src/dlls/d3d11/spirv_emit.c:492-494 | the words of the type section are copied behind the preamble |
| `SpirvBuilder.Builder.Finish` | wcl/src/dlls/d3d11/spirv_emit.c:1008-1018 | a missing OpReturn is added, then OpFunctionEnd, and the bound is patched |
| `SpirvBuilder.DxbcToSpirv` | wcl/src/dlls/d3d11/spirv_emit.c:366-1033 | the result is the specified word stream, cut off where the buffer ends |
| `Preservation.PlainReadIsExact` | wcl/src/dlls/d3d11/dxbc.c:261-283 | the compiler's unswizzled read agrees with the VM on every vector exactly for the plain operands of the fragment |
| `Preservation.FullMaskIsExact` | wcl/src/dlls/d3d11/dxbc.c:328-335 | the compiler's unmasked write agrees with the VM on every vector exactly for the full mask |
| `Preservation.MinMaxAgreement` | wcl/src/dlls/d3d11/dxbc.c:556-579 | the VM's minimum and maximum are the compiled ones if and only if the comparison separates different words |
| `Preservation.MovcAgreement` | wcl/src/dlls/d3d11/dxbc.c:580-594 | the VM's conditional move is the compiled one if and only if only the zero pattern compares equal to zero |
| `Preservation.RsqAgreement` | wcl/src/dlls/d3d11/dxbc.c:595-608 | the VM's guarded reciprocal root is the compiled one if and only if the root of everything not positive is zero |
| `Preservation.SourceComputes` | wcl/src/dlls/d3d11/spirv_emit.c:560-646 | a compiled operand evaluates to what the VM reads, including the vec3 position widened with w = 1 |
| `Preservation.AluComputes` | wcl/src/dlls/d3d11/spirv_emit.c:660-980 | each of the 14 compiled operations evaluates to the VM's result |
| `Preservation.InstrPreserves` | wcl/src/dlls/d3d11/spirv_emit.c:536-1003 | from matching states, one instruction leads both sides to matching states |
| `Preservation.CodePreserves` | wcl/src/dlls/d3d11/spirv_emit.c:517-1006 | so does all straight-line code from any position |
| `Preservation.ModuleEvaluates` | wcl/src/dlls/d3d11/spirv_emit.c:366-1018 | a whole module evaluates, and the outputs match |
| `Preservation.CompilerPreservesMeaning` | wcl/src/dlls/d3d11/spirv_emit.c:366-1033 | for every straight-line shader that fits, every float arithmetic and every input, the emitted words parse and evaluate, and every output that the VM writes has the same value in both |
| `Services.Find` | system/citcinit/src/service.c:66-73 | the first service of that name, or none |
| `Services.UpdateKeepsInv` | system/citcinit/src/service.c:257-400 | changing one service sanely keeps the invariant of the table |
| `Services.StartKeepsInv` | system/citcinit/src/service.c:257-400 | starting a stopped service keeps the invariant and touches no other service |
| `Services.StartIsSafeExactly` | system/citcinit/src/service.c:257-292 | starting keeps the invariant for every launch if and only if the service is neither STARTING nor STOPPING |
| `Services.ExitKeepsInv` | system/citcinit/src/service.c:456-516 | a child's exit keeps the invariant, changes no FAILED service, and counts one restart exactly when it relaunches |
| `Services.EventKeepsInv` | system/citcinit/src/socket_activation.c:334-380 | the same for every event: exits, connections to an activation socket and stop requests |
| `Services.RunsKeepInv` | system/citcinit/src/main.c:891-934 | after any run, pids belong exactly to STARTING, RUNNING and STOPPING services and are distinct, FAILED was never left, and relaunches stayed within max_restarts |
| `Services.DependencyTestExactly` | system/citcinit/src/service.c:216-242 | the dependency test passes if and only if every dependency is registered and is one-shot or running |
| `Lifecycle.StartOutcome` | system/citcinit/src/service.c:257-400 | starting a stopped service leaves it up if its dependencies are provided and the launch forks, failed if they are and it does not, and stopped otherwise; nothing else changes |
| `Lifecycle.StartElsewhere` | system/citcinit/src/service.c:257-281 | a running service is not started again, and an unknown name starts nothing |
| `Lifecycle.StopOutcome` | system/citcinit/src/service.c:417-445 | a stop request turns RUNNING and STARTING into STOPPING, keeps the pid, and changes nothing else |
| `Lifecycle.ActivationOutcome` | system/citcinit/src/socket_activation.c:334-380 | a connection starts the first service that listens there exactly if it is stopped, with the outcomes of a start |
| `Lifecycle.ExitOutcome` | system/citcinit/src/service.c:456-516 | an exit leaves a one-shot service stopped if its code is 0 and failed if not, a service asked to stop stopped, one without restarts left failed, and any other live again exactly if the relaunch forks and its dependencies are provided |
| `Lifecycle.StrangerExits` | system/citcinit/src/service.c:456-470 | the exit of a process that no service holds changes nothing |
| `Lifecycle.StopIsFinal` | system/citcinit/src/service.c:417-516 | a service asked to stop is stopped after its exit, whatever its restart policy |
| `StartOrder.PathDescends` | system/citcinit/src/service.c:557-645 | a dependency path from a listed service only leads to services listed earlier |
| `StartOrder.ListedIsNotBlocked` | system/citcinit/src/service.c:557-645 | no listed service reaches a cycle or an unregistered name |
| `StartOrder.LeftOverIsBlocked` | system/citcinit/src/service.c:557-645 | every service left over does |
| `StartOrder.LeftOutExactly` | system/citcinit/src/service.c:557-645 | an ordered and exhausted list contains exactly the services from which neither a cycle nor an unregistered name is reachable |
| `ServiceManager.QueuePush` | system/citcinit/src/service.c:614-623 | a service whose last dependency was met is queued behind all of them, once, and the queue array has room |
| `ServiceManager.Release` | system/citcinit/src/service.c:614-623 | the inner loops lower the in-degrees by the edges of the dequeued service and queue what reaches zero |
| `ServiceManager.Fill` | system/citcinit/src/service.c:584-593 | initial in-degrees are the dependency counts, and the queue holds the services without any |
| `ServiceManager.QueueEmpty` | system/citcinit/src/service.c:595-641 | when the queue runs dry, the order is topological and complete up to blocked services |
| `ServiceManager.RegistrationIsUnique` | system/citcinit/src/service.c:101-128 | registering keeps names distinct if and only if the name, cut to the field's size, is new; it always is for names that fit |
| `ServiceManager.LongNamesCollide` | system/citcinit/src/service.c:101-128 | two different names that agree in 63 characters are both registered, under one name |
| `ServiceManager.Manager.FindService` | system/citcinit/src/service.c:66-73 | the search loop |
| `ServiceManager.Manager.Register` | system/citcinit/src/service.c:101-128 | a new entry is appended unless the table is full or the name is taken |
| `ServiceManager.Manager.DependenciesSatisfied` | system/citcinit/src/service.c:216-242 | the loop decides `DepsSatisfied` |
| `ServiceManager.Manager.SvcStart` | system/citcinit/src/service.c:257-400 | the whole table after a start attempt, for every outcome of the launch |
| `ServiceManager.Manager.SvcStop` | system/citcinit/src/service.c:417-445 | the whole table after a stop request |
| `ServiceManager.Manager.SvcNotifyExit` | system/citcinit/src/service.c:456-516 | the whole table after a child's exit, including the relaunch |
| `ServiceManager.Manager.StartAll` | system/citcinit/src/service.c:557-645 | at boot every service is taken at most once and behind all its dependencies; those never taken are exactly the blocked ones and stay as they were; the lifecycle invariant holds |
| `BootOutcome.UpExactly` | system/citcinit/src/service.c:257-400 | after a boot a service is up if and only if it was taken, its launch forked, and every dependency is registered and one-shot or running in the final table |
| `BootOutcome.ProvidedEarly` | system/citcinit/src/service.c:595-624 | a dependency is provided when its dependent is taken exactly if it is provided in the end |
| `BootOutcome.OneshotMayBeUnfinished` | system/citcinit/src/service.c:224-235 | a boot after which a service runs while the one-shot service it depends on has not finished |
| `BootOutcome.EventKeepsStuck` | system/citcinit/src/service.c:383-392 | no event sets a NOTIFY service to RUNNING or starts what depends on one |
| `BootOutcome.NotifyDependentNeverStarts` | system/citcinit/src/service.c:383-392 | a service that depends on one of type NOTIFY is not started by the boot or by any run after it |
| `Packages.Installer.FindInIndex` | system/citcpkg/src/repo.c:218-226 | the first entry of that name, or none |
| `Packages.Installer.InstallArchive` | system/citcpkg/src/package.c:235-250 | a package enters the database only if it is absent and all its dependencies are present |
| `Packages.Installer.InstallWithDeps` | system/citcpkg/src/repo.c:367-452 | the recursive search over the visited array computes `Install`: database, visited marks, attempts and result |
| `Packages.Installer.RepoInstall` | system/citcpkg/src/repo.c:461-501 | a request starts the search with nothing visited |
| `PackageProofs.InstallKeeps` | system/citcpkg/src/repo.c:367-452 | what every single installation keeps holds of every database of a whole run |
| `PackageProofs.AlwaysClosed` | system/citcpkg/src/repo.c:367-452 | every intermediate database is dependency-closed |
| `PackageProofs.CycleNeverInstalled` | system/citcpkg/src/repo.c:367-452 | no member of a cycle of uninstalled packages is in any database of the run |
| `PackageProofs.OnlyArchivesRecorded` | system/citcpkg/src/package.c:235-250 | in every database of a run each new record repeats the name and dependencies of a complete archive of the repository; an incomplete one never gets in |
| `PackageProofs.InstallProgress` | system/citcpkg/src/repo.c:367-452 | visited marks and records are never lost and no index entry is attempted twice |
| `PackageProofs.ZeroMeansInstalled` | system/citcpkg/src/repo.c:461-501 | result 0 means that every path of dependencies from the request, as recorded for packages installed before and as listed in the index for the others, ends in an installed package; each entry was attempted at most once |
| `PackageProofs.RecordsRepeatIndex` | system/citcpkg/src/repo.c:367-452 | every new record has the dependencies of the index entry that a search for the package finds |
| `PackageProofs.ClosedReaches` | system/citcpkg/src/repo.c:367-452 | a closed database whose new records repeat the index contains everything that anything in it needs, over any number of steps |
| `PackageProofs.NoReturn` | system/citcpkg/src/repo.c:367-452 | dependency paths of an installable request never return to a package on them |
| `PackageProofs.InstallCompletes` | system/citcpkg/src/repo.c:367-452 | at any depth of the search an installable package gets installed |
| `PackageProofs.RequestCompletes` | system/citcpkg/src/repo.c:461-501 | a request all of whose dependency paths have at most ten edges and end in installed or downloadable packages succeeds |
| `PackageLimits.HandledIsPassed` | system/citcpkg/src/repo.c:367-420 | dependencies that are installed or already being handled are passed over with success, without another attempt |
| `PackageLimits.SelfDependencyIsRefused` | system/citcpkg/src/repo.c:367-452 | a package that depends on itself and else on installed ones is downloaded once and refused, and the database stays as it was |
| `PackageLimits.ChainExactly` | system/citcpkg/src/repo.c:371-376 | a chain of packages, each needing the next, is installed if and only if it has at most eleven links |
| `TerminalSpec.Put` | display/terminal/src/citcterm.c:328-405 | the cursor stays on the page and the escape buffer within its size |
| `TerminalSpec.PutKeepsHistory` | display/terminal/src/citcterm.c:328-405 | one byte adds at most one line and changes no line above the page |
| `TerminalSpec.HistoryIsFinal` | display/terminal/src/citcterm.c:157-162 | lines scrolled off never change again, whatever follows |
| `Terminal.ParsedStep` | display/terminal/src/citcterm.c:187-209 | one byte of the parameter loop extends or completes a decimal field |
| `Terminal.ParseParams` | display/terminal/src/citcterm.c:187-209 | the loop yields the decimal values of the semicolon-separated fields, at most 8 |
| `Terminal.Emulator.ScrollUp` | display/terminal/src/citcterm.c:157-162 | the cells become the last page of the document with one more blank line |
| `Terminal.Emulator.NewLine` | display/terminal/src/citcterm.c:339-345 | a line feed on the page is a line feed of the document |
| `Terminal.Emulator.PrintChar` | display/terminal/src/citcterm.c:357-375 | a printed character with wrap at column 80 |
| `Terminal.Emulator.EraseDisplay` | display/terminal/src/citcterm.c:266-288 | ED erases from, up to or regardless of the cursor, in reading order |
| `Terminal.Emulator.EraseInLine` | display/terminal/src/citcterm.c:291-308 | EL does so within the cursor's line |
| `Terminal.Emulator.ExecuteCsi` | display/terminal/src/citcterm.c:217-318 | cursor movement clipped to the page, and the erase functions (ECMA-48, section 8.3) |
| `Terminal.Emulator.PutChar` | display/terminal/src/citcterm.c:328-405 | cells, cursor and escape state show the last page of the document after one byte of `Put` |
| `Terminal.Emulator.PutBytes` | display/terminal/src/citcterm.c:328-405 | the same after any byte sequence |
| `TerminalCodes.ParamsRoundTrip` | display/terminal/src/citcterm.c:187-209 | decimal numbers with semicolons between them are read back as written, the first eight |
| `TerminalCodes.SequenceRuns` | display/terminal/src/citcterm.c:328-405 | ESC [ parameters command runs the command once, with the first 31 parameter bytes |
| `TerminalCodes.MovesTo` | display/terminal/src/citcterm.c:249-264 | ESC [ r ; c H and f put the cursor on row r and column c of the page, counted from one and clipped |
| `TerminalCodes.MovesHome` | display/terminal/src/citcterm.c:249-264 | with fewer parameters, row or column 1 |
| `TerminalCodes.MovesVertically` | display/terminal/src/citcterm.c:225-235 | ESC [ n A and B move up and down by n, stopping at the border of the page |
| `TerminalCodes.MovesHorizontally` | display/terminal/src/citcterm.c:236-247 | ESC [ n C and D move right and left by n |
| `TerminalCodes.MovesByOne` | display/terminal/src/citcterm.c:225-247 | without a parameter by one |
| `TerminalCodes.ModeErases` | display/terminal/src/citcterm.c:266-309 | ESC [ m J wipes from, up to or regardless of the cursor on the page, ESC [ m K on its line, in reading order, and no other cell |
| `TerminalCodes.OthersDoNothing` | display/terminal/src/citcterm.c:217-318 | every other command changes neither cells nor cursor |
| `TerminalCodes.BrokenSequences` | display/terminal/src/citcterm.c:328-405 | neither does a sequence that is broken off |
| `TerminalCodes.ControlsMove` | display/terminal/src/citcterm.c:328-356 | return goes to column 1, backspace one back, tab to the next multiple of eight, within the line |
| `TerminalCodes.LineFeedMoves` | display/terminal/src/citcterm.c:339-345 | a line feed goes one line down in the same column; on the last line the page moves with it |
| `TerminalCodes.TextAppears` | display/terminal/src/citcterm.c:357-375 | text that fits the line appears at the cursor, which ends behind it, and no other cell changes |
| `TerminalCodes.LastColumnWraps` | display/terminal/src/citcterm.c:357-375 | a character in column 80 appears there and the cursor wraps to the next line |
| `Raster.WeightsSumToArea` | wcl/src/dlls/d3d11/d3d11.c:1205-1209 | the three edge functions at any point sum to the triangle's area |
| `Raster.MeanIsBounded` | wcl/src/dlls/d3d11/d3d11.c:1357-1366 | a point with weights of one sign lies within the bounds of the corners |
| `Raster.CoveredIsInBox` | wcl/src/dlls/d3d11/d3d11.c:1320-1333 | every covered pixel lies in the rounded bounding box |
| `Raster.CoveredWeights` | wcl/src/dlls/d3d11/d3d11.c:1357-1373 | the weights of a covered pixel are non-negative and sum to 1 |
| `Raster.DrawAt` | wcl/src/dlls/d3d11/d3d11.c:1354-1433 | coverage test, depth test and writes of one pixel |
| `Raster.ScanBox` | wcl/src/dlls/d3d11/d3d11.c:1352-1435 | the box scan draws exactly its pixels, each once |
| `Raster.RasterizeTriangle` | wcl/src/dlls/d3d11/d3d11.c:1305-1436 | both buffers are those of drawing every pixel of the target, for every triangle and viewport |
| `Raster.OutsideUnchanged` | wcl/src/dlls/d3d11/d3d11.c:1313-1348 | drawing a pixel outside the clamped box, or of a culled or degenerate triangle, changes nothing |
| `RasterLaws.WeightsPlace` | wcl/src/dlls/d3d11/d3d11.c:1357-1373 | the weights sum to one and mix the corners to the pixel centre, in both coordinates |
| `RasterLaws.WeightsAreUnique` | wcl/src/dlls/d3d11/d3d11.c:1205-1209 | no other weights do |
| `RasterLaws.CoveredExactly` | wcl/src/dlls/d3d11/d3d11.c:1357-1366 | a triangle that is drawn covers a pixel if and only if the centre lies in the closed triangle |
| `RasterLaws.DepthOnPlane` | wcl/src/dlls/d3d11/d3d11.c:1375-1378 | a fragment of a planar triangle has the depth of the plane at the pixel centre |
| `RasterLaws.ScreenCorners` | wcl/src/dlls/d3d11/d3d11.c:1313-1318 | the corners of the device square go to the corners of the viewport, y downwards, and midpoints to midpoints |
| `RasterLaws.OneSideIsCulled` | wcl/src/dlls/d3d11/d3d11.c:1340-1348 | culling draws exactly one side of a triangle of area 0.001 or more, no culling both |
| `RasterLaws.ClockwiseIsFront` | wcl/src/dlls/d3d11/d3d11.c:1340-1348 | the front is the side whose corners run clockwise on the screen |
| `RasterLaws.ComparisonLaws` | wcl/src/dlls/d3d11/d3d11.c:1290-1303 | the eight depth comparisons as opposites and mirror images of one another, with the tolerance of the equal ones |
| `DepthOrder.DrawTriangles` | wcl/src/dlls/d3d11/d3d11.c:1759-1884 | a draw call leaves in every cell the fold of the triangles' fragments |
| `DepthOrder.DrawListResolves` | wcl/src/dlls/d3d11/d3d11.c:1375-1385 | with LESS and depth writes the fold keeps the first nearest fragment |
| `DepthOrder.ResolveIsNearest` | wcl/src/dlls/d3d11/d3d11.c:1290-1303 | the result is no farther than any fragment and is one of them or the old cell |
| `DepthOrder.DepthIsMinimum` | wcl/src/dlls/d3d11/d3d11.c:1375-1385 | each depth cell ends as the minimum of its old value and all covering fragments |
| `DepthOrder.FragmentsOfPermutation` | wcl/src/dlls/d3d11/d3d11.c:1759-1884 | permuting the triangles permutes the fragments of every pixel |
| `DepthOrder.DrawOrderExactly` | wcl/src/dlls/d3d11/d3d11.c:1759-1884 | every order of the triangle list gives a pixel the same depth and colour if and only if its nearest fragments in front of the old depth have one colour |
| `DepthOrder.PictureOrderExactly` | wcl/src/dlls/d3d11/d3d11.c:1759-1884 | every order gives the same picture if and only if that holds at every pixel of the target |
| `RasterLaws.PaintersOrder` | wcl/src/dlls/d3d11/d3d11.c:1375-1433 | without depth test the last triangle over a pixel gives its colour, and the depth stays |
| `RasterLaws.ReadOnlyDepth` | wcl/src/dlls/d3d11/d3d11.c:1375-1385 | with the test on and writes off the last fragment that passes against the old depth gives the colour |
| `Mixer.MixedIsSumMinusClipped` | audio/src/citcaudio.c:466-480 | a mixed sample fits 16 bits and differs from the exact sum by exactly what was clipped |
| `Mixer.MixedIsConfinedSum` | audio/src/citcaudio.c:466-480 | it is the exact sum confined between the mixes that start at the lowest and the highest sample |
| `Mixer.MixesAsDocumentedExactly` | audio/src/citcaudio.c:440-480 | it is the documented clamped sum if and only if that lies between those two mixes |
| `Mixer.OneSignMixesExactly` | audio/src/citcaudio.c:466-480 | it is the clamped sum when all contributions have one sign |
| `Mixer.TwoMixExactly` | audio/src/citcaudio.c:466-480 | and always for two streams |
| `Mixer.ThreeMayDiffer` | audio/src/citcaudio.c:440-480 | a counterexample with three |
| `Mixer.SampleRoundTrip` | audio/src/citcaudio.c:464-473 | signed samples written in two's complement, low byte first, are read back; behind the last there is silence |
| `Mixer.ColumnOfSamples` | audio/src/citcaudio.c:461-480 | what is mixed at a position is the list of the samples that the clients wrote there, in slot order |
| `Ring.HoldsAppended` | audio/src/citcaudio.c:103-120 | a wrapped copy behind the contents appends to them |
| `Ring.HoldsDropped` | audio/src/citcaudio.c:122-139 | advancing the read position drops from the front |
| `Ring.RingBuffer.Write` | audio/src/citcaudio.c:103-120 | all bytes are appended across the wrap, or none when they do not fit |
| `Ring.RingBuffer.Read` | audio/src/citcaudio.c:122-139 | the oldest bytes in order, or none when there are too few |
| `AudioServer.Server.Accept` | audio/src/citcaudio.c:589-602 | a freed slot's new client owns no stream |
| `AudioServer.Server.RemoveClient` | audio/src/citcaudio.c:294-318 | exactly the client's streams are closed |
| `AudioServer.Server.OpenStream` | audio/src/citcaudio.c:320-353 | the first free slot, with an empty ring; id 0 exactly when all are taken |
| `AudioServer.Server.WriteStream` | audio/src/citcaudio.c:355-378 | bytes are taken exactly from the owner of an open stream with room, and appended to what it has accepted |
| `AudioServer.Server.CloseStream` | audio/src/citcaudio.c:380-391 | only the owner closes a stream |
| `AudioServer.Server.AddPeriod` | audio/src/citcaudio.c:466-480 | one stream's period is added to every sample with saturation |
| `AudioServer.Server.MixOne` | audio/src/citcaudio.c:461-480 | a ready stream gives one period; what it was mixed and still holds stays all it accepted |
| `AudioServer.Server.Mix` | audio/src/citcaudio.c:451-486 | each sample is the slot-order mix of the ready streams; each ready stream loses exactly its oldest period and the others nothing; every stream's mixed bytes followed by its ring are its accepted writes |
| `AudioServer.Server.Offered` | audio/src/citcaudio.c:371-373 | a write offers the longest prefix of its bytes that it announces |
| `AudioServer.PlayedInOrder` | audio/src/citcaudio.c:451-486 | any number of mixes in a row plays an open stream's bytes in order, one period each, until less than a period is left |
| `Desk.WindowsAreNotShared` | display/compositor/src/compositor.c:1493-1500 | distinct active surfaces name distinct windows |
| `Desk.FreeWindow` | display/compositor/src/compositor.c:1074-1081 | the first hidden window without a surface |
| `Desk.CreatedKeepsLinks` | display/compositor/src/compositor.c:1576-1646 | CREATE keeps every surface and its own window naming each other |
| `Desk.DestroyedKeepsLinks` | display/compositor/src/compositor.c:1818-1845 | so does DESTROY |
| `Desk.RaisedKeepsLinks` | display/compositor/src/compositor.c:1906-1945 | so does RAISE, with its move and its re-indexing |
| `Desk.PanelledKeepsLinks` | display/compositor/src/compositor.c:1770-1815 | so does SET_PANEL |
| `Desk.DisconnectedKeepsLinks` | display/compositor/src/compositor.c:1517-1553 | so does a disconnect, after which no active surface belongs to the client |
| `Desk.ButtonsKeepLinks` | display/compositor/src/compositor.c:2856-2876 | so do the close and minimize buttons |
| `Desk.FocusKeepsLinksExactly` | display/compositor/src/compositor.c:1153-1168 | a focus click keeps the links if and only if the window is on top already or no active surface's window is at or above it |
| `Desk.StepKeepsLinksExactly` | display/compositor/src/compositor.c:1555-1945 | any event keeps the links unless it is a focus click that breaks this condition |
| `Desk.RunsKeepLinksExactly` | display/compositor/src/compositor.c:1555-1945 | the links hold after every event of a run if and only if each of its focus clicks meets the condition when it is made |
| `Desk.RunsKeepLinks` | display/compositor/src/compositor.c:1555-1945 | so after every such run from start-up each active surface names a window in range that was made for it and names it back, and its client is connected |
| `Desk.RunsKeepNumbers` | display/compositor/src/compositor.c:1064-1168 | no run, whatever is clicked, gives two windows one identity or overfills the slots |
| `Desk.ReleasedAt` | display/compositor/src/compositor.c:1517-1553 | a departing client's surfaces free exactly the windows that they name |
| `Desk.StaysDeadExactly` | display/compositor/src/compositor.c:1517-1945 | a destroyed surface's window stays hidden and unused through an event if and only if the event does not reach it through an active surface that names it: a raise, or its client's departure |
| `Desk.RunsLeaveDeadExactly` | display/compositor/src/compositor.c:1517-1945 | it does so after every event of a run if and only if no event of the run reaches it |
| `Desk.DestroyedWindowStaysExactly` | display/compositor/src/compositor.c:1818-1845 | from any run, whatever was clicked: the window of a surface that names its own window is, after the destroy, unused through every later event if and only if none reaches it |
| `Desk.DestroyedWindowStays` | display/compositor/src/compositor.c:1818-1845 | so it stays unused through every run, before and after, whose focus clicks are harmless, even after its client has left |
| `DeskLaws.CreateOutcome` | display/compositor/src/compositor.c:1576-1646 | CREATE gives the client a visible window over exactly the requested area and the title bar, if and only if there is a free surface and room for a window; all else stays |
| `DeskLaws.DestroyOutcome` | display/compositor/src/compositor.c:1818-1845 | DESTROY takes the window off the screen and changes nothing else |
| `DeskLaws.RaiseOutcome` | display/compositor/src/compositor.c:1906-1945 | RAISE puts the window, restored, on top; the others keep their order |
| `DeskLaws.RaiseKeepsOthers` | display/compositor/src/compositor.c:1929-1934 | every other surface goes on showing the window that it showed |
| `DeskLaws.RaisedIsHit` | display/compositor/src/compositor.c:1906-1945 | the pointer then finds it at each of its points that no panel covers |
| `DeskLaws.RaiseRestores` | display/compositor/src/compositor.c:1906-1945 | raising undoes minimizing, and raising twice is raising once |
| `DeskLaws.MinimizeOutcome` | display/compositor/src/compositor.c:2870-2876 | a minimized window is under no point and keeps its geometry |
| `DeskLaws.PanelOutcome` | display/compositor/src/compositor.c:1770-1815 | SET_PANEL stretches the window over exactly the bottom strip of the screen |
| `DeskLaws.LeaveOutcome` | display/compositor/src/compositor.c:1517-1553 | a client that leaves takes exactly its surfaces and their windows along |
| `DeskLaws.CloseOutcome` | display/compositor/src/compositor.c:2856-2869 | the close button disconnects the owner of the window's surface, and only hides a window without one |
| `DeskCases.FocusMayBreakLinks` | display/compositor/src/compositor.c:2920 | start-up, one client surface and a click on the Terminal window: the surface then names the Terminal |
| `DeskCases.DestroyedWindowMayBeReused` | display/compositor/src/compositor.c:2920 | a run in which one harmful click lets a destroyed surface's window be reused and leaves another window without a client |
| `DeskCases.HitMayMissThePaint` | display/compositor/src/compositor.c:1770-1815 | a run with two panels in which the pointer finds the one painted over |
| `HitTest.WindowAtPoint` | display/compositor/src/compositor.c:1113-1141 | the first visible panel over the point, else the last visible ordinary window, else -1 |
| `HitTest.PaintOrder` | display/compositor/src/compositor.c:2575-2587 | ordinary windows in list order, then panels in list order |
| `HitTest.PaintedLastOfLayer` | display/compositor/src/compositor.c:2575-2587 | within a layer the highest covering window is painted last |
| `HitTest.HitIsPaintedLastExactly` | display/compositor/src/compositor.c:1113-1141 | the pointer hits the window painted last if and only if no two visible panels cover the point |
| `HitTest.FocusedWins` | display/compositor/src/compositor.c:1153-1168 | a focused ordinary window is hit at every one of its points that no panel covers |
| `HitTest.FocusKeepsOtherHits` | display/compositor/src/compositor.c:1153-1168 | at all other points the same window is hit as before |
| `Compositor.Screen.WindowCreate` | display/compositor/src/compositor.c:1064-1105 | the first free slot or a new one is filled, or -1 at eight windows |
| `Compositor.Screen.CreateSurface` | display/compositor/src/compositor.c:1576-1646 | the state of `Created`; the id sent back names a new surface of the client |
| `Compositor.Screen.DestroySurface` | display/compositor/src/compositor.c:1818-1845 | the state of `Destroyed` |
| `Compositor.Screen.MoveToTop` | display/compositor/src/compositor.c:1163-1167 | the element-by-element shift takes one window out and puts it on top, the others in order |
| `Compositor.Screen.Reindex` | display/compositor/src/compositor.c:1929-1934 | every active surface above the moved window comes down by one |
| `Compositor.Screen.RaiseSurface` | display/compositor/src/compositor.c:1906-1945 | the state of `Raised`; the raised surface names the focused top window |
| `Compositor.Screen.DisconnectClient` | display/compositor/src/compositor.c:1517-1553 | the state of `Disconnected` |
| `Compositor.Screen.AcceptClient` | display/compositor/src/compositor.c:1443-1488 | the first free slot, or -1 exactly when all are taken |
| `Compositor.Screen.WindowFocus` | display/compositor/src/compositor.c:1153-1168 | the window moves to the top and gets the focus, as in `Focused`; an index outside the list changes nothing |
| `Framing.DecodeEncode` | display/protocol/cdp_proto.h:536-541 | header words survive the little-endian encoding |
| `Framing.FrameLayout` | display/protocol/cdp_proto.h:533-550 | on the wire a frame is the type and the length, four bytes each, lowest first, then the payload |
| `Framing.FrameRoundTrip` | display/protocol/cdp_proto.h:533-591 | a frame within the limit is received with its type, its size and the first min(size, max) bytes, and all that follows is left |
| `Framing.DeliveredWasFramed` | display/protocol/cdp_proto.h:558-591 | conversely a message delivered whole was framed exactly so |
| `Framing.OversizeLosesTheBoundary` | display/protocol/cdp_proto.h:571-575 | a message is refused exactly when it exceeds the limit, and its payload then stays in the stream |
| `Framing.NullPayloadTakesWhatFollows` | display/protocol/cdp_proto.h:544-547 | a header sent with a null payload makes the receiver take the bytes that follow it for the payload |
| `Framing.Socket.WriteAll` | display/protocol/cdp_proto.h:487-505 | under any pattern of partial and interrupted writes all bytes go out once and in order, unless a call fails |
| `Framing.Socket.ReadAll` | display/protocol/cdp_proto.h:510-528 | under any such pattern exactly the next bytes are taken, unless a call fails |
| `Framing.Socket.SendMsg` | display/protocol/cdp_proto.h:533-550 | success appends the header and the payload, or the header alone when the payload is null |
| `Framing.Socket.CdpRecv` | display/protocol/cdp_proto.h:558-591 | the result is the type as a signed word, or -1; a received message is the one that `Receive` finds in the stream, and without a failing call the only refusal is an oversized message |
| `Framing.Socket.Skip` | audio/src/citcaudio_proto.h:230-237 | the chunked discard drops exactly that many bytes |
| `Framing.Socket.AudioRecv` | audio/src/citcaudio_proto.h:204-242 | the same for the audio receiver with its own limit |
| `Framing.Socket.CdpExchange` | display/protocol/cdp_proto.h:487-591 | any list of messages within the limit, sent and then received under any pattern of partial and interrupted calls, arrives in order with type, size and the first min(size, max) bytes and leaves the stream empty, if and only if no call fails and no type is negative as a signed word; without a failing call it stops at the boundary behind the first negative type |
| `Framing.Socket.AudioExchange` | audio/src/citcaudio_proto.h:151-242 | the same for the audio protocol |
| `Relocation.LoadStored` | wcl/src/loader/citcrun.c:435-448 | a word written to memory reads back modulo its size |
| `Relocation.EachGainsDelta` | wcl/src/loader/citcrun.c:424-456 | with disjoint targets each listed word gains the offset exactly once |
| `Relocation.BlockIsFold` | wcl/src/loader/citcrun.c:420-456 | a block processed in place does what its entries, read beforehand, ask for |
| `Relocation.WalkIsFold` | wcl/src/loader/citcrun.c:413-459 | so does the whole table |
| `Relocation.RelocationIsExact` | wcl/src/loader/citcrun.c:386-464 | every listed word is moved by the offset modulo its size and no other byte changes |
| `Relocation.StaysProper` | wcl/src/loader/citcrun.c:386-464 | a relocated image lists the same targets again |
| `Relocation.RelocationsCompose` | wcl/src/loader/citcrun.c:386-464 | relocating by d and then e is relocating by d + e modulo 2^64 |
| `Relocation.RelocationUndone` | wcl/src/loader/citcrun.c:386-464 | relocating by -d undoes relocating by d |
| `RelocTable.EntryIsTarget` | wcl/src/loader/citcrun.c:424-428 | an entry of a block laid out in bytes names base, page and offset, as 8 bytes for type 10, 4 for type 3, and nothing for the others |
| `RelocTable.TableTargets` | wcl/src/loader/citcrun.c:413-459 | the walk over a table laid out from a list of blocks finds exactly the targets that the list names, up to the end or a block of size zero |
| `RelocTable.RelocatesTheListed` | wcl/src/loader/citcrun.c:386-464 | relocating a memory that holds the table adds the offset to the 8 or 4 bytes at each of these targets and changes no other byte |
| `RelocTable.WordBecomes` | wcl/src/loader/citcrun.c:435-448 | in bytes: where a target held v, it holds v plus the offset modulo its size |
| `Relocation.Loader.ApplyEntry` | wcl/src/loader/citcrun.c:424-456 | the type switch: a 64-bit or 32-bit wrapping addition, or nothing |
| `Relocation.Loader.ApplyRelocations` | wcl/src/loader/citcrun.c:386-464 | the loops compute `Relocate` for any memory, directory entry and offset, and end on any bytes, even where fixups rewrite the table |
| `Bus.Holder` | system/citc-ipc/src/ipc_daemon.c:157-165 | the first connected client of that name |
| `Bus.StepKeepsNames` | system/citc-ipc/src/ipc_daemon.c:226-371 | every event keeps non-empty names distinct |
| `Bus.RunsKeepNames` | system/citc-ipc/src/ipc_daemon.c:226-371 | in every reachable state non-empty names are pairwise distinct |
| `Bus.RegisterOutcome` | system/citc-ipc/src/ipc_daemon.c:257-288 | REGISTER gives a client the name and answers nothing if nobody holds it, and else answers with an error and changes nothing |
| `Bus.HeldExactly` | system/citc-ipc/src/ipc_daemon.c:226-371 | after any run a client holds a name if and only if some event granted it and no later one took it away |
| `Bus.ConnectOutcome` | system/citc-ipc/src/ipc_daemon.c:185-213 | a newcomer gets a free slot, the next number and no name, exactly if there is a free slot |
| `Bus.HangupOutcome` | system/citc-ipc/src/ipc_daemon.c:168-180 | a client that hangs up leaves its slot to the next newcomer; the others keep theirs |
| `Bus.SentOnce` | system/citc-ipc/src/ipc_daemon.c:290-335 | a SEND to a non-empty name yields one packet with its serial: a delivery to the unique holder, with the sender's name, the method and the announced bytes, or an error to the sender exactly when there is none |
| `Bus.SignalledOnce` | system/citc-ipc/src/ipc_daemon.c:337-364 | a BROADCAST yields one signal with its serial for every other connected client and for nobody else |
| `Bus.BroadcastReaches` | system/citc-ipc/src/ipc_daemon.c:337-364 | BROADCAST sends the sender's name, the signal and its data once to every other connected client |
| `Bus.Daemon.FindByName` | system/citc-ipc/src/ipc_daemon.c:157-165 | the search loop |
| `Bus.Daemon.Accept` | system/citc-ipc/src/ipc_daemon.c:185-213 | the first free slot gets a new id and a welcome, or the connection is refused |
| `Bus.Daemon.Disconnect` | system/citc-ipc/src/ipc_daemon.c:168-180 | the slot and its name become free |
| `Bus.Daemon.Handle` | system/citc-ipc/src/ipc_daemon.c:226-371 | state and packets of every request are those of `Step`, and names stay distinct |

## Left out

- Preservation.CompilerPreservesMeaning: covers straight-line code with plain operands, full masks and registers written before they are read, because the compiler drops swizzles, masks, constant buffers and control flow; MIN, MAX, MOVC and RSQ are included under exact conditions on the arithmetic, and OpDot is taken to add in the VM's order.
- SpirvFormat.ModuleIsWellFormed: does not claim the logical layout of the SPIR-V Specification, because immediates emit constants inside the function body.
- SpirvBuilder.DxbcToSpirv: takes at most 8 inputs, 8 outputs and 32 temporaries, which is what the arrays of the program hold.
- ControlFlow.TokensImplementTree: the big-step semantics is stated for loops nested at most 16 deep, which is the size of the loop stack, and without IFs that lack an ELSE where their skip would leave a loop and land in an ELSE around it; `StructuredMachine.TokensFollowTree` covers those programs step by step.
- ShaderVm.Execute: takes a limit on the number of instructions, because nested loops may run for ever, and every limit is covered; a source operand cut off by the end of the code stops the model, where the program computes on with uninitialised memory.
- SpirvBuilder.Builder.EmitCode: ends at an instruction with such an operand, where the program goes on with an uninitialised operand record.
- Raster.RasterizeTriangle: uses real numbers for floats and one arbitrary function of the weights for interpolation, pixel shader and texturing.
- HitTest.PaintOrder: treats a window as its rectangle; what a client has drawn into its surface, transparency and the cursor are not modelled.
- Compositor.Screen.WindowFocus: does not keep `Valid`, because the links may break there; the exact condition is `Desk.FocusKeepsLinksExactly`.
- Relocation.Loader.ApplyRelocations: memory is total, so unmapped addresses do not fault, and addresses do not wrap at 2^64.
- Bus.Daemon.Handle: starts from a request that has been read whole; of the data field only the bytes that the program copies are modelled.
- AudioServer.Server.Mix: stops at the mixed period; handing it to the sound device is not modelled.
- Terminal.ParseParams: treats parameters as mathematical integers, so the overflow of very long digit strings is not modelled.
- ServiceManager.Manager.StartAll: is stated for distinct names, which registration guarantees exactly under the condition of `ServiceManager.RegistrationIsUnique`, and for a boot with all services stopped and a launch outcome for each.
- Services.EventKeepsInv: a connection to an activation socket is one event; building the array of polled descriptors is not modelled.
- Desk.ButtonsKeepLinks: the close and minimize buttons, like SET_PANEL, are modelled on values only, because in the program each is a few assignments.
- IEEE rounding, NaN and signed zero, beyond what the conditions on the arithmetic say.
- How a driver fills SPIR-V variables from their locations; the evaluator starts from variables that hold the shader's inputs.
- Block structure of SPIR-V function bodies: code behind an early return is emitted into the same block.
- Parsing of DXBC containers, service files, package indexes and PKGINFO text; the model starts from the parsed records.
- DRM, evdev, poll, mmap, fork, exec, pseudo-terminals and file-descriptor passing: environment choices or absent.
- Vulkan and D3D12 back ends, COM tables, registry, NT file calls, the object table, the shader cache, the shell's tokenizer, fonts and panel drawing: they would only add easy members or rest on code that is not part of this repository.
- Surface buffers, damage tracking, dragging, resizing, maximizing and clipboard of the compositor.
