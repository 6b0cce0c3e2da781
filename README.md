# Host side of the bead-on-a-wire simulation

The program runs `n_groups` independent instances ("groups") of a
position-based-dynamics simulation. Each group is a circular wire with
N_BEADS = 8 beads threaded on it. The simulation steps themselves run as
four OpenCL kernels on a device. This model covers the host program
`pbd.c`:

- **Initialisation** (`init_groups`): the wire gets centre (0, 0) and radius
  0.8. Bead 0 gets radius 0.1. Every later bead's radius comes from the
  next draw of `drand48`, after `srand48(100)`.
- **One frame** (`update_sim`): N_STEPS = 100 substeps. Each substep
  dispatches start_step, keep_on_wire, bead_cols and end_step, in that
  order, and waits for each. Each dispatch is over `n_groups * N_BEADS`
  work items. Its profiled duration `end - start` is added to the 64-bit
  total `elapsed`. After the substeps, one blocking read copies the device
  buffer back into the host groups.
- **The two output modes of `main`**: the full trace writes frames 0 .. 600
  to each group's CSV file. The ends-only mode writes the initial state as
  frame 0 and the final state as frame 1. Either way, each group's frame is
  8 bead rows (kind 0) followed by a wire row (kind 1), after the header.
- **The report** (`print_time`): the total and its mean over the groups,
  as decimals grouped in thousands by commas.

There are three modules:

- `TimeFormat` (`time_format.dfy`): the report. `Grouped` is the reference
  grouped decimal. `PrintTime` is the report loop with its upward scan
  corrected so that the divisor never wraps, proved against `Grouped`.
  `PrintTimeAsWritten` is the loop of `print_time` as written, with the
  64-bit wrap-around of its divisor (see Findings).
- `Groups` (`groups.dfy`): the `struct group` data, with floats kept as
  IEEE-754 bit patterns, and `InitGroups`.
- `Engine` (`engine.dfy`): the command queue, the device copy, `elapsed` and
  the CSV files, as a class `Simulation` whose methods follow
  `update_kernel`, `update_sim`, `print_sim_one`, `print_sim_all`,
  `open_all` and the two branches of `main`. Each method is proved against
  specification functions: `FrameCommands`/`RunCommands` for the queue,
  `AfterFrames` for the device copy, `RunTotal` for `elapsed`, and
  `TraceFile`/`EndsFile` for the files.

What a kernel does to the groups is an opaque length-preserving function
`run`. The device's profiling timestamps are inputs, and so is the
`drand48` stream.

## Model

| member | source | states |
|---|---|---|
| TimeFormat.PrintTime | pbd.c:249-258 | For every 64-bit value, the report line is the message, ": ", the decimal grouped in thousands by commas, then " ns" and a newline. |
| TimeFormat.PrintTimeAsWritten | pbd.c:249-258 | The loop exactly as written, with the divisor wrapping modulo 2^64. It fails (None) exactly when the as-written text divides by zero. Otherwise it prints `AsWrittenText`, which equals the grouped decimal for every value below 10^18. |
| TimeFormat.WalkDown | pbd.c:254-257 | The walk down from the leading divisor prints the leading group unpadded, then each lower group as a comma and three zero-padded digits. |
| TimeFormat.DigitsFromLead | pbd.c:251-257 | Started at the largest power of 1000 not above the value (1 for 0), the walk down prints exactly the grouped decimal. |
| TimeFormat.CommaGroupsComplete | pbd.c:256-257 | The groups printed below divisor 1000^k complete the grouped decimal of the value divided by 1000^k into that of the whole value. |
| TimeFormat.GroupedRoundTrip | pbd.c:254-256 | Removing the commas from the grouped text gives back exactly the plain decimal of the value. |
| TimeFormat.GroupedShape | pbd.c:254-256 | The grouped text is digits and commas. The leading group has 1 to 3 digits and every later group exactly 3. |
| TimeFormat.DecIsDecimal | pbd.c:254 | The unpadded conversion is all digits and reads back as the value. It has no leading zero unless it is "0". |
| TimeFormat.DecUnique | pbd.c:254 | Any digit string without a leading zero is the conversion of its own value. |
| TimeFormat.DecSplit | pbd.c:256 | The decimal of a * 1000 + b, with a > 0 and b < 1000, is that of a followed by b zero-padded to three digits. |
| TimeFormat.WrappedPowVanishes | pbd.c:252 | After 22 or more multiplications by 1000 in 64-bit arithmetic, the divisor is 0. |
| TimeFormat.WrappedPowExact | pbd.c:252 | Up to 1000^6 = 10^18, the wrapped divisor equals the true power of 1000. |
| TimeFormat.AsWrittenBelowE18 | pbd.c:251-257 | For every value below 10^18, the as-written text is the grouped decimal. |
| TimeFormat.AsWrittenMisprintsE18 | pbd.c:252-254 | For 10^18 the as-written text starts with "258", while the grouped decimal starts with "1". |
| TimeFormat.AsWrittenDividesByZero | pbd.c:252 | For 2^64 - 1 the as-written scan wraps its divisor to 0 and divides by zero. |
| Groups.InitGroups | pbd.c:159-176 | Every group gets the wire (0, 0) with radius 0.8. Bead j gets radius 0.1 for j = 0, else the radius of draw 8i + j - 1. It also gets the mass of its radius and the j-th place on the wire. Previous and next positions and velocities stay as allocated. Exactly 8 draws are made per group. |
| Groups.DrawIndexInjective | pbd.c:165-173 | No two beads, in the same group or in different groups, take the same draw. |
| Groups.DrawUse | pbd.c:167-174 | Draw k, for k mod 8 not 7, sets the radius of bead k mod 8 + 1 of group k div 8. The last draw of each group (k mod 8 = 7) sets no radius. |
| Groups.DiscardedDrawsUnused | pbd.c:173 | Two draw streams that differ only at each group's last draw give every bead the same radius. |
| Engine.FrameCommandsOrder | pbd.c:200-210 | One frame queues 401 commands. Command t < 400 launches kernel t mod 4 of start_step, keep_on_wire, bead_cols, end_step over n_groups * 8 work items. Command 400 is the blocking read-back. |
| Engine.RunCommandsAt | pbd.c:269-270 | f frames queue f copies of the frame's commands; block g is exactly frame g's 401 commands. |
| Engine.RunTotalFlat | pbd.c:178-211 | The exact total of a run of frames with 400 dispatches each is the sum of the durations of all 400 * f dispatches in order. |
| Engine.ElapsedStep | pbd.c:194 | Adding durations one at a time in 64-bit arithmetic keeps the running total equal to the exact sum mod 2^64. |
| Engine.FrameElapsedStep | pbd.c:194 | The same, frame by frame. |
| Engine.Mean | pbd.c:295 | The mean over n >= 1 groups is at most the total, so it is still a 64-bit value. |
| Engine.GroupRowsLayout | pbd.c:235-242 | A group's frame is 9 rows: bead j's position and radius as kind 0 for j = 0..7 in order, then the wire's centre and radius as kind 1, all with the same frame number. |
| Engine.TraceUpToAt | pbd.c:279-288 | A trace of f frames is the header followed by 9 rows per frame. Block g holds the state after exactly g frames, numbered g. |
| Engine.EndsOnlyMatchesTrace | pbd.c:266-291 | For the same initial groups and the same kernel behaviour `run`, the ends-only file's frame 0 equals the full trace's frame 0. Its frame 1 equals the full trace's frame 600, renumbered to 1. |
| Engine.Simulation.constructor | pbd.c:126-128 | The device buffer starts as a copy of the host groups. The total is 0, the queue is empty and no file has been written. |
| Engine.Simulation.UpdateKernel | pbd.c:178-196 | One launch over n_groups * 8 work items is queued and the device copy goes through the kernel. The total grows by `end - start` mod 2^64. The files are unchanged. |
| Engine.Simulation.RunSubstep | pbd.c:202-205 | One substep launches the four kernels in order with the next four timestamps, keeping the `update_sim` loop state. |
| Engine.Simulation.RunSubsteps | pbd.c:201-206 | 100 substeps queue `LaunchCommands(n, 100)` and apply them to the device copy. The total grows by the sum of the 400 durations mod 2^64. |
| Engine.Simulation.UpdateSim | pbd.c:200-211 | One frame queues `FrameCommands`. The device copy goes through 100 substeps, then the host copy equals it. The total grows by the frame's durations mod 2^64. The files are unchanged. |
| Engine.Simulation.ReadBack | pbd.c:207-210 | The blocking read is queued and the host copy equals the device copy. |
| Engine.Simulation.OpenCsv | pbd.c:213-220 | Group c's file is emptied; no other file changes. |
| Engine.Simulation.PrintHeader | pbd.c:231-233 | The header row is appended to group c's file; no other file changes. |
| Engine.Simulation.PrintSimOne | pbd.c:235-242 | The group's 9 rows are appended to group c's file; no other file changes. |
| Engine.Simulation.PrintSimAll | pbd.c:244-247 | Each group's 9 rows for the current host state are appended to its own file. |
| Engine.Simulation.OpenAll | pbd.c:222-229 | Every group's file is opened and empty. |
| Engine.Simulation.FrameStep | pbd.c:269-270 | One pass of the frame loop takes the state after f frames to the state after f + 1 frames. |
| Engine.Simulation.UpdateFrames | pbd.c:269-270 | 600 frames leave the device and host copies at `AfterFrames(600)` and the queue at `RunCommands(n, 600)`. The total becomes the exact sum of all durations mod 2^64. |
| Engine.Simulation.RunEndsOnly | pbd.c:266-278 | Ends-only mode runs 600 frames, then writes each group's file as `EndsFile`: header, initial state as frame 0, final state as frame 1. |
| Engine.Simulation.TraceStep | pbd.c:284-287 | One pass of the traced loop writes every group's state as frame f, then runs one frame. |
| Engine.Simulation.TraceFrames | pbd.c:284-287 | After the loop, every file holds the header and frames 0 .. 599, each the state after that many frames. |
| Engine.Simulation.RunTrace | pbd.c:279-291 | Full-trace mode writes each group's file as `TraceFile`: header, then frames 0 .. 600. Frame f is the state after f frames. |
| Engine.Simulation.Run | pbd.c:261-297 | In either mode the run queues 600 frames of commands and leaves the groups at `AfterFrames(600)`. `elapsed` becomes the sum of all 240000 durations mod 2^64. The files are those of the mode. The report lines, made by the corrected `PrintTime`, are "sum" and "mean" with the grouped decimals of `elapsed` and `elapsed / n_groups`. Below 10^18 they are exactly the text `print_time` as written produces. |

## Left out

- The kernels of the device program (start_step, keep_on_wire, bead_cols, end_step) are not part of this model. Each is an opaque function from groups to groups that keeps their number. Group independence therefore cannot be stated.
- Floating point: floats are kept as bit patterns. The radius from a draw, the mass of a radius and the positions on the wire are given as functions (`FloatOps`), not computed. The `%f` text of the CSV rows is a row value, not formatted text.
- `drand48`/`srand48(100)` are replaced by a draw stream given as a parameter, indexed from 0.
- Timestamps: `clGetEventProfilingInfo` values are given as inputs.
- OpenCL setup (`init_cl`, `create_kernel`) and every error path through `die` are left out. Only the device buffer's initial copy of the host groups is kept.
- File handling: file names, `fopen`, `fclose` and `free` are left out. Each group's file is the sequence of rows written to it.
- `parse_args` is left out: the number of groups and the mode are inputs.
- `profile.c` is not part of this model.
- `xmalloc` is left out. It tests the requested size instead of the returned pointer, so a failed allocation is not caught.
- The unused `out%03d.csv` name built in `open_all` is left out. The files use `open_csv`'s own name.
- Engine.Simulation.Run: the report lines come from the corrected `PrintTime`, not from `print_time` as written. They are proved equal to the program's own text while `elapsed` is below 10^18. At 10^18 the program misprints the leading group, and at 2^64 - 1 it divides by zero; see Findings.
- Engine.Simulation.Run: requires at least one group. With zero groups `xmalloc` in pbd.c stops on the zero-size request before any output, so the mean's division is never reached.
- Engine.EndsOnlyMatchesTrace: compares the two modes under one deterministic kernel function `run`. The two modes are separate runs of the program, so the lemma holds for the program only if the device kernels give bit-identical results on identical input. Nothing in `pbd.c` can show that, and the device program is not part of this model.
- Engine.Simulation.UpdateKernel: the work-item count `n_groups * N_BEADS` is an unbounded product, not the C `int` product. The model does not capture its overflow for very large group counts.
- `init_groups` leaves the previous and next positions and the velocities as the allocation found them. The model keeps them unchanged rather than zeroing them, which follows the code.

## Findings

| source | as written | input that shows it | evidently intended | confidence | as-written member | corrected member |
|---|---|---|---|---|---|---|
| pbd.c:252 | The upward scan multiplies the 64-bit unsigned divisor by 1000 while it still divides into the value, so the divisor wraps around modulo 2^64 once it passes 2^64. | 10^18: the divisor wraps to 3875820019684212736, and the text starts "258" instead of "1,000,…". | The value's decimal grouped in thousands, for every 64-bit value. | not executed | TimeFormat.AsWrittenMisprintsE18 | TimeFormat.PrintTime |
| pbd.c:252 | The same wrapping scan can reach a divisor of 0 before it exceeds the value, and the next loop test divides by zero. | 2^64 - 1: the 22nd multiplication leaves the divisor at 0. | The value's decimal grouped in thousands, for every 64-bit value. | not executed | TimeFormat.AsWrittenDividesByZero | TimeFormat.PrintTime |
