/** The host side of the simulation: the four kernels dispatched N_STEPS
    times per frame, the profiling total `elapsed`, the read-back of the
    groups after every frame, the two output modes of `main` and the rows
    `print_sim_one` writes.

    The kernels themselves are given by the device program, which is not
    part of this model: what a kernel does to the device copy of the groups
    is an opaque function `run`, and the device's profiling timestamps are
    inputs. */
module Engine {
  import opened Groups
  import TimeFormat

  const N_STEPS: nat := 100
  const FPS: nat := 60
  /** The number of frames `main` runs: ten seconds at FPS frames a second. */
  const N_FRAMES: nat := 10 * FPS

  datatype Kernel = StartStep | KeepOnWire | BeadCols | EndStep

  /** The order in which `update_sim` dispatches the kernels in each substep. */
  const PhaseOrder: seq<Kernel> := [StartStep, KeepOnWire, BeadCols, EndStep]

  /** A command the host puts on the command queue: a kernel over a number
      of work items, or the blocking read of the whole group buffer back
      into the host copy. */
  datatype Command = Launch(kernel: Kernel, workItems: nat) | ReadGroups

  /** The device's `CL_PROFILING_COMMAND_START` and `_END` values for one
      dispatch, both `cl_ulong`. */
  datatype Stamp = Stamp(start: nat, end: nat)

  predicate ValidStamp(s: Stamp) {
    s.start < TimeFormat.U64 && s.end < TimeFormat.U64
  }

  predicate ValidStamps(stamps: seq<Stamp>) {
    forall t :: 0 <= t < |stamps| ==> ValidStamp(stamps[t])
  }

  /** `end - start` in `cl_ulong` arithmetic. */
  function Duration(s: Stamp): nat {
    (s.end - s.start) % TimeFormat.U64
  }

  /** What one kernel does to the device copy of the groups. Only the
      number of groups is known to be kept. */
  type KernelEffect = f: (Kernel, seq<Group>) -> seq<Group> | forall k, s :: |f(k, s)| == |s|
    witness (k: Kernel, s: seq<Group>) => s

  // ---------------------------------------------------------------------
  // The device copy through substeps and frames

  /** One substep: the four kernels in PhaseOrder. */
  function Substep(run: KernelEffect, s: seq<Group>): (r: seq<Group>)
    ensures |r| == |s|
  {
    run(EndStep, run(BeadCols, run(KeepOnWire, run(StartStep, s))))
  }

  function Substeps(run: KernelEffect, m: nat, s: seq<Group>): (r: seq<Group>)
    ensures |r| == |s|
  {
    if m == 0 then s else Substep(run, Substeps(run, m - 1, s))
  }

  /** The device copy after f frames of N_STEPS substeps each. */
  function AfterFrames(run: KernelEffect, f: nat, s: seq<Group>): (r: seq<Group>)
    ensures |r| == |s|
  {
    if f == 0 then s else Substeps(run, N_STEPS, AfterFrames(run, f - 1, s))
  }

  // ---------------------------------------------------------------------
  // The commands of a frame and of a run

  function SubstepCommands(n: nat): seq<Command> {
    var w := n * N_BEADS;
    [Launch(StartStep, w), Launch(KeepOnWire, w), Launch(BeadCols, w), Launch(EndStep, w)]
  }

  function LaunchCommands(n: nat, m: nat): seq<Command> {
    if m == 0 then [] else LaunchCommands(n, m - 1) + SubstepCommands(n)
  }

  /** The commands of one `update_sim` over n groups. */
  function FrameCommands(n: nat): seq<Command> {
    LaunchCommands(n, N_STEPS) + [ReadGroups]
  }

  function RunCommands(n: nat, f: nat): seq<Command> {
    if f == 0 then [] else RunCommands(n, f - 1) + FrameCommands(n)
  }

  lemma {:induction false} LaunchCommandsAt(n: nat, m: nat)
    ensures |LaunchCommands(n, m)| == 4 * m
    ensures forall t :: 0 <= t < 4 * m ==>
      LaunchCommands(n, m)[t] == Launch(PhaseOrder[t % 4], n * N_BEADS)
  {
    if m > 0 {
      LaunchCommandsAt(n, m - 1);
      var prev := LaunchCommands(n, m - 1);
      forall t | 0 <= t < 4 * m
        ensures LaunchCommands(n, m)[t] == Launch(PhaseOrder[t % 4], n * N_BEADS)
      {
        if t >= 4 * (m - 1) {
          var p := t - 4 * (m - 1);
          assert LaunchCommands(n, m)[t] == SubstepCommands(n)[p];
          assert t % 4 == p;
          assert SubstepCommands(n)[p] == Launch(PhaseOrder[p], n * N_BEADS) by {
            if p == 0 {} else if p == 1 {} else if p == 2 {} else {}
          }
        } else {
          assert LaunchCommands(n, m)[t] == prev[t];
        }
      }
    }
  }

  /** One `update_sim` issues exactly N_STEPS * 4 launches, each over
      n * N_BEADS work items, in the repeating order start_step,
      keep_on_wire, bead_cols, end_step, and then one blocking read. */
  lemma FrameCommandsOrder(n: nat)
    ensures |FrameCommands(n)| == 4 * N_STEPS + 1
    ensures forall t :: 0 <= t < 4 * N_STEPS ==>
      FrameCommands(n)[t] == Launch(PhaseOrder[t % 4], n * N_BEADS)
    ensures FrameCommands(n)[4 * N_STEPS] == ReadGroups
  {
    LaunchCommandsAt(n, N_STEPS);
  }

  /** A run of f frames issues f copies of the frame's commands, one after
      the other: frame g's commands are the g-th block of 4 * N_STEPS + 1. */
  lemma {:induction false} RunCommandsAt(n: nat, f: nat, g: nat)
    requires g < f
    ensures |RunCommands(n, f)| == (4 * N_STEPS + 1) * f
    ensures RunCommands(n, f)[(4 * N_STEPS + 1) * g .. (4 * N_STEPS + 1) * (g + 1)] == FrameCommands(n)
  {
    FrameCommandsOrder(n);
    var w := 4 * N_STEPS + 1;
    if g < f - 1 {
      RunCommandsAt(n, f - 1, g);
      assert w * (g + 1) <= w * (f - 1);
      assert RunCommands(n, f)[w * g .. w * (g + 1)] == RunCommands(n, f - 1)[w * g .. w * (g + 1)];
    } else if f > 1 {
      RunCommandsAt(n, f - 1, 0);
    }
  }

  // ---------------------------------------------------------------------
  // Timing

  /** The sum of the durations of a sequence of dispatches. */
  function Total(stamps: seq<Stamp>): nat {
    if stamps == [] then 0 else Total(stamps[..|stamps| - 1]) + Duration(stamps[|stamps| - 1])
  }

  function Flatten(frames: seq<seq<Stamp>>): seq<Stamp> {
    if frames == [] then [] else Flatten(frames[..|frames| - 1]) + frames[|frames| - 1]
  }

  /** The sum over frames of each frame's total. */
  function RunTotal(frames: seq<seq<Stamp>>): nat {
    if frames == [] then 0 else RunTotal(frames[..|frames| - 1]) + Total(frames[|frames| - 1])
  }

  lemma {:induction false} TotalAppend(a: seq<Stamp>, b: seq<Stamp>)
    ensures Total(a + b) == Total(a) + Total(b)
    decreases |b|
  {
    if b == [] {
      assert a + b == a;
    } else {
      assert (a + b)[..|a + b| - 1] == a + b[..|b| - 1];
      assert (a + b)[|a + b| - 1] == b[|b| - 1];
      TotalAppend(a, b[..|b| - 1]);
    }
  }

  /** The run's total is the sum of the durations of all its dispatches,
      taken one frame after another: 400 a frame over 600 frames. */
  lemma {:induction false} RunTotalFlat(frames: seq<seq<Stamp>>)
    requires forall f :: 0 <= f < |frames| ==> |frames[f]| == 4 * N_STEPS
    ensures |Flatten(frames)| == 4 * N_STEPS * |frames|
    ensures RunTotal(frames) == Total(Flatten(frames))
  {
    if frames != [] {
      var init, last := frames[..|frames| - 1], frames[|frames| - 1];
      assert forall f :: 0 <= f < |init| ==> init[f] == frames[f];
      RunTotalFlat(init);
      assert Flatten(frames) == Flatten(init) + last;
      assert |last| == 4 * N_STEPS;
      TotalAppend(Flatten(init), last);
    }
  }

  /** `a + b` on `cl_ulong`. */
  function AddU64(a: nat, b: nat): (r: nat)
    ensures r < TimeFormat.U64
  {
    (a + b) % TimeFormat.U64
  }

  /** Adding the durations one at a time in 64-bit arithmetic leaves the
      running total at the 64-bit reduction of their exact sum. */
  lemma ElapsedStep(e: nat, s: seq<Stamp>, t: nat)
    requires t < |s|
    ensures AddU64(AddU64(e, Total(s[..t])), Duration(s[t])) == AddU64(e, Total(s[..t + 1]))
  {
    assert s[..t + 1][..t] == s[..t];
    AddMod(e + Total(s[..t]), Duration(s[t]));
  }

  /** The same, four dispatches at a time. */
  lemma SubstepElapsed(e: nat, s: seq<Stamp>, t: nat)
    requires t + 4 <= |s|
    ensures AddU64(AddU64(AddU64(AddU64(AddU64(e, Total(s[..t])), Duration(s[t])), Duration(s[t + 1])),
                          Duration(s[t + 2])), Duration(s[t + 3]))
      == AddU64(e, Total(s[..t + 4]))
  {
    ElapsedStep(e, s, t);
    ElapsedStep(e, s, t + 1);
    ElapsedStep(e, s, t + 2);
    ElapsedStep(e, s, t + 3);
  }

  /** The same, frame by frame. */
  lemma FrameElapsedStep(frames: seq<seq<Stamp>>, f: nat)
    requires f < |frames|
    ensures AddU64(RunTotal(frames[..f]) % TimeFormat.U64, Total(frames[f]))
      == RunTotal(frames[..f + 1]) % TimeFormat.U64
  {
    assert frames[..f + 1][..f] == frames[..f];
    AddMod(RunTotal(frames[..f]), Total(frames[f]));
  }

  /** `elapsed / n_groups`. */
  function Mean(total: nat, n: nat): (r: nat)
    requires n >= 1
    ensures r <= total
  {
    var q := total / n;
    assert q <= q * n <= total;
    q
  }

  lemma AddMod(a: nat, d: nat)
    ensures (a % TimeFormat.U64 + d) % TimeFormat.U64 == (a + d) % TimeFormat.U64
  {
  }

  // ---------------------------------------------------------------------
  // Output rows

  /** A line of a group's CSV file: the header `f,t,x,y,r`, or a row of
      frame number, kind (0 for a bead, 1 for the wire), x, y and radius. */
  datatype Row = Header | Data(frame: int, kind: int, x: F32, y: F32, r: F32)

  const BEAD: int := 0
  const WIRE: int := 1

  function BeadRow(g: Group, j: nat, frame: int): Row
    requires j < N_BEADS
  {
    Data(frame, BEAD, g.beadsPos[j].x, g.beadsPos[j].y, g.beadsRadius[j])
  }

  function WireRow(g: Group, frame: int): Row {
    Data(frame, WIRE, g.wire.pos.x, g.wire.pos.y, g.wire.radius)
  }

  /** The rows `print_sim_one` writes for one group at one frame. */
  function GroupRows(g: Group, frame: int): (rows: seq<Row>)
  {
    seq(N_BEADS, j requires 0 <= j < N_BEADS => BeadRow(g, j, frame)) + [WireRow(g, frame)]
  }

  /** Group i's file in full-trace mode once frames 0 .. f - 1 are
      written: the header, then for each frame g the rows of the state after
      g frames, starting from the device copy s. */
  function TraceUpTo(run: KernelEffect, s: seq<Group>, i: nat, f: nat): seq<Row>
    requires i < |s|
  {
    if f == 0 then [Header] else TraceUpTo(run, s, i, f - 1) + GroupRows(AfterFrames(run, f - 1, s)[i], f - 1)
  }

  /** Group i's file in full-trace mode: frames 0 .. N_FRAMES. */
  function TraceFile(run: KernelEffect, s: seq<Group>, i: nat): seq<Row>
    requires i < |s|
  {
    TraceUpTo(run, s, i, N_FRAMES + 1)
  }

  /** Group i's file in ends-only mode: the initial state as frame 0, the
      state after the last frame as frame 1. */
  function EndsFile(run: KernelEffect, s: seq<Group>, i: nat): seq<Row>
    requires i < |s|
  {
    [Header] + GroupRows(s[i], 0) + GroupRows(AfterFrames(run, N_FRAMES, s)[i], 1)
  }

  /** The rows with every frame number replaced by `frame`. */
  function Renumber(rows: seq<Row>, frame: int): seq<Row> {
    seq(|rows|, t requires 0 <= t < |rows| =>
      match rows[t] case Header => Header case Data(_, k, x, y, r) => Data(frame, k, x, y, r))
  }

  /** `print_sim_one` writes N_BEADS bead rows in bead order, then the wire
      row, all with the same frame number. */
  lemma GroupRowsLayout(g: Group, frame: int)
    ensures |GroupRows(g, frame)| == N_BEADS + 1
    ensures forall j :: 0 <= j < N_BEADS ==>
      GroupRows(g, frame)[j] == Data(frame, BEAD, g.beadsPos[j].x, g.beadsPos[j].y, g.beadsRadius[j])
    ensures GroupRows(g, frame)[N_BEADS] ==
      Data(frame, WIRE, g.wire.pos.x, g.wire.pos.y, g.wire.radius)
  {
  }

  /** In a full trace the rows of frame g are those of the state after
      exactly g frames, and they follow the header and frames 0 .. g - 1. */
  lemma {:induction false} TraceUpToAt(run: KernelEffect, s: seq<Group>, i: nat, f: nat, g: nat)
    requires i < |s| && g < f
    ensures |TraceUpTo(run, s, i, f)| == 1 + (N_BEADS + 1) * f
    ensures TraceUpTo(run, s, i, f)[1 + (N_BEADS + 1) * g .. 1 + (N_BEADS + 1) * (g + 1)]
      == GroupRows(AfterFrames(run, g, s)[i], g)
  {
    var w := N_BEADS + 1;
    if g < f - 1 {
      TraceUpToAt(run, s, i, f - 1, g);
      var prev := TraceUpTo(run, s, i, f - 1);
      assert 1 + w * (g + 1) <= 1 + w * (f - 1);
      assert TraceUpTo(run, s, i, f)[1 + w * g .. 1 + w * (g + 1)] == prev[1 + w * g .. 1 + w * (g + 1)];
    } else if f > 1 {
      TraceUpToAt(run, s, i, f - 1, 0);
    }
  }

  /** Ends-only and full-trace output agree for the same initial groups and
      the same kernel behaviour `run`: the ends-only frame 0 is the full
      trace's frame 0, and the ends-only frame 1 is the full trace's last
      frame, N_FRAMES, renumbered. The two modes are separate runs, so this
      carries over to the program only where the device kernels are
      deterministic. */
  lemma EndsOnlyMatchesTrace(run: KernelEffect, s: seq<Group>, i: nat)
    requires i < |s|
    ensures |EndsFile(run, s, i)| == 1 + 2 * (N_BEADS + 1)
    ensures |TraceFile(run, s, i)| == 1 + (N_BEADS + 1) * (N_FRAMES + 1)
    ensures EndsFile(run, s, i)[1 .. N_BEADS + 2] == TraceFile(run, s, i)[1 .. N_BEADS + 2]
    ensures EndsFile(run, s, i)[N_BEADS + 2 ..]
      == Renumber(TraceFile(run, s, i)[1 + (N_BEADS + 1) * N_FRAMES ..], 1)
  {
    var w := N_BEADS + 1;
    TraceUpToAt(run, s, i, N_FRAMES + 1, 0);
    TraceUpToAt(run, s, i, N_FRAMES + 1, N_FRAMES);
    assert TraceFile(run, s, i)[1 + w * N_FRAMES ..] == TraceFile(run, s, i)[1 + w * N_FRAMES .. 1 + w * (N_FRAMES + 1)];
    var last := AfterFrames(run, N_FRAMES, s)[i];
    assert Renumber(GroupRows(last, N_FRAMES), 1) == GroupRows(last, 1);
  }

  // ---------------------------------------------------------------------
  // The program state

  /** The program's global state: the host copy `groups`, the device copy
      `groups_mem`, the profiling total `elapsed`, what has been put on the
      command queue `cmdq`, and what each group's CSV file holds. */
  class Simulation {
    const nGroups: nat
    const run: KernelEffect
    const groups: array<Group>
    var device: seq<Group>
    var elapsed: nat
    var queue: seq<Command>
    var files: seq<seq<Row>>

    ghost predicate Valid()
      reads this
    {
      groups.Length == nGroups && |device| == nGroups && |files| == nGroups &&
      elapsed < TimeFormat.U64
    }

    /** The state once `init_cl` has created the device buffer as a copy of
      the initialised host groups. */
    constructor (groups: array<Group>, run: KernelEffect)
      ensures Valid()
      ensures this.groups == groups && this.run == run && nGroups == groups.Length
      ensures device == groups[..] && elapsed == 0 && queue == []
      ensures files == seq(groups.Length, _ => [])
    {
      this.nGroups := groups.Length;
      this.run := run;
      this.groups := groups;
      device := groups[..];
      elapsed := 0;
      queue := [];
      files := seq(groups.Length, _ => []);
    }

    /** `update_kernel`: one launch over nGroups * N_BEADS work items, waited
      for; the device copy goes through the kernel and `elapsed` grows by
      the dispatch's `end - start`. Nothing else changes. */
    method UpdateKernel(k: Kernel, stamp: Stamp)
      requires Valid() && ValidStamp(stamp)
      modifies this
      ensures Valid()
      ensures queue == old(queue) + [Launch(k, nGroups * N_BEADS)]
      ensures device == run(k, old(device))
      ensures elapsed == AddU64(old(elapsed), Duration(stamp))
      ensures files == old(files)
    {
      queue := queue + [Launch(k, nGroups * N_BEADS)];
      device := run(k, device);
      elapsed := (elapsed + (stamp.end - stamp.start) % TimeFormat.U64) % TimeFormat.U64;
    }

    /** The state of the loop in `update_sim` after i substeps from the
      queue q0, device copy d0, total e0 and files f0. */
    ghost predicate Stepped(q0: seq<Command>, d0: seq<Group>, e0: nat, f0: seq<seq<Row>>, stamps: seq<Stamp>, i: nat)
      reads this
    {
      Valid() && 4 * i <= |stamps| &&
      queue == q0 + LaunchCommands(nGroups, i) &&
      device == Substeps(run, i, d0) &&
      elapsed == AddU64(e0, Total(stamps[..4 * i])) &&
      files == f0
    }

    /** One pass of the loop in `update_sim`: start_step, keep_on_wire,
      bead_cols and end_step, each waited for and timed with the next four
      timestamps. */
    method RunSubstep(stamps: seq<Stamp>, i: nat,
                      ghost q0: seq<Command>, ghost d0: seq<Group>, ghost e0: nat, ghost f0: seq<seq<Row>>)
      requires Stepped(q0, d0, e0, f0, stamps, i) && 4 * i + 4 <= |stamps| && ValidStamps(stamps)
      modifies this
      ensures Stepped(q0, d0, e0, f0, stamps, i + 1)
    {
      var t := 4 * i;
      UpdateKernel(StartStep, stamps[t]);
      UpdateKernel(KeepOnWire, stamps[t + 1]);
      UpdateKernel(BeadCols, stamps[t + 2]);
      UpdateKernel(EndStep, stamps[t + 3]);
      SubstepElapsed(e0, stamps, t);
    }

    /** The loop of `update_sim`: N_STEPS substeps over the given
      timestamps, four per substep. */
    method RunSubsteps(stamps: seq<Stamp>)
      requires Valid() && |stamps| == 4 * N_STEPS && ValidStamps(stamps)
      modifies this
      ensures Valid()
      ensures queue == old(queue) + LaunchCommands(nGroups, N_STEPS)
      ensures device == Substeps(run, N_STEPS, old(device))
      ensures elapsed == AddU64(old(elapsed), Total(stamps))
      ensures files == old(files)
    {
      ghost var q0, d0, e0, f0 := queue, device, elapsed, files;
      assert stamps[..0] == [];
      for i := 0 to N_STEPS
        invariant Stepped(q0, d0, e0, f0, stamps, i)
      {
        RunSubstep(stamps, i, q0, d0, e0, f0);
      }
      assert stamps[..4 * N_STEPS] == stamps;
    }

    /** `update_sim`: N_STEPS substeps of the four kernels, then the
      blocking read of the device copy into the host copy. */
    method UpdateSim(stamps: seq<Stamp>)
      requires Valid() && |stamps| == 4 * N_STEPS && ValidStamps(stamps)
      modifies this, groups
      ensures Valid()
      ensures queue == old(queue) + FrameCommands(nGroups)
      ensures device == Substeps(run, N_STEPS, old(device))
      ensures groups[..] == device
      ensures elapsed == AddU64(old(elapsed), Total(stamps))
      ensures files == old(files)
    {
      RunSubsteps(stamps);
      ReadBack();
    }

    /** The blocking `clEnqueueReadBuffer` of `update_sim`: the whole device
      copy is read back into the host copy. */
    method ReadBack()
      requires Valid()
      modifies this`queue, groups
      ensures Valid()
      ensures queue == old(queue) + [ReadGroups]
      ensures groups[..] == device
    {
      queue := queue + [ReadGroups];
      forall j | 0 <= j < nGroups {
        groups[j] := device[j];
      }
    }

    /** `open_csv(c)`: the file of group c, emptied. */
    method OpenCsv(c: nat)
      requires Valid() && c < nGroups
      modifies this`files
      ensures Valid()
      ensures files == old(files)[c := []]
    {
      files := files[c := []];
    }

    /** `print_header` on the file of group c. */
    method PrintHeader(c: nat)
      requires Valid() && c < nGroups
      modifies this`files
      ensures Valid()
      ensures files == old(files)[c := old(files)[c] + [Header]]
    {
      files := files[c := files[c] + [Header]];
    }

    /** `print_sim_one`: the bead rows of g in bead order, then its wire row,
      appended to the file of group c. */
    method PrintSimOne(c: nat, g: Group, frame: int)
      requires Valid() && c < nGroups
      modifies this`files
      ensures Valid()
      ensures files == old(files)[c := old(files)[c] + GroupRows(g, frame)]
    {
      ghost var before := files[c];
      for j := 0 to N_BEADS
        invariant Valid() && |files| == |old(files)|
        invariant files[c] == before + GroupRows(g, frame)[..j]
        invariant forall k :: 0 <= k < |files| && k != c ==> files[k] == old(files)[k]
      {
        files := files[c := files[c] + [BeadRow(g, j, frame)]];
        assert GroupRows(g, frame)[..j + 1] == GroupRows(g, frame)[..j] + [BeadRow(g, j, frame)];
      }
      files := files[c := files[c] + [WireRow(g, frame)]];
      assert GroupRows(g, frame) == GroupRows(g, frame)[..N_BEADS] + [WireRow(g, frame)];
      assert files[c] == old(files)[c] + GroupRows(g, frame);
      assert forall k :: 0 <= k < |files| ==> files[k] == old(files)[c := old(files)[c] + GroupRows(g, frame)][k];
    }

    /** `print_sim_all`: every group's host state, as frame `frame`, onto its
      own file. */
    method PrintSimAll(frame: int)
      requires Valid()
      modifies this`files
      ensures Valid()
      ensures forall i :: 0 <= i < nGroups ==> files[i] == old(files)[i] + GroupRows(groups[i], frame)
    {
      for i := 0 to nGroups
        invariant Valid()
        invariant forall i' :: 0 <= i' < i ==> files[i'] == old(files)[i'] + GroupRows(groups[i'], frame)
        invariant forall i' :: i <= i' < nGroups ==> files[i'] == old(files)[i']
      {
        PrintSimOne(i, groups[i], frame);
      }
    }

    /** The state of either frame loop after f frames from the device copy
      s0, as far as the simulation goes. */
    ghost predicate Ran(s0: seq<Group>, stamps: seq<seq<Stamp>>, f: nat)
      reads this, groups
    {
      Valid() && |s0| == nGroups && f <= |stamps| &&
      device == AfterFrames(run, f, s0) && groups[..] == device &&
      queue == RunCommands(nGroups, f) &&
      elapsed == RunTotal(stamps[..f]) % TimeFormat.U64
    }

    /** One `update_sim` of the frame loop, with the f-th frame's
      timestamps. */
    method FrameStep(f: nat, stamps: seq<seq<Stamp>>, ghost s0: seq<Group>)
      requires Ran(s0, stamps, f) && f < |stamps|
      requires |stamps[f]| == 4 * N_STEPS && ValidStamps(stamps[f])
      modifies this, groups
      ensures Ran(s0, stamps, f + 1) && files == old(files)
    {
      UpdateSim(stamps[f]);
      FrameElapsedStep(stamps, f);
    }

    /** The frame loop of `main` in ends-only mode, without output: N_FRAMES
      calls of `update_sim` from the fresh state. */
    method UpdateFrames(stamps: seq<seq<Stamp>>)
      requires Valid()
      requires device == groups[..] && elapsed == 0 && queue == []
      requires |stamps| == N_FRAMES
      requires forall f :: 0 <= f < N_FRAMES ==> |stamps[f]| == 4 * N_STEPS && ValidStamps(stamps[f])
      modifies this, groups
      ensures Valid()
      ensures device == AfterFrames(run, N_FRAMES, old(device)) && groups[..] == device
      ensures queue == RunCommands(nGroups, N_FRAMES)
      ensures elapsed == RunTotal(stamps) % TimeFormat.U64
      ensures files == old(files)
    {
      ghost var s0 := device;
      assert stamps[..0] == [];
      for f := 0 to N_FRAMES
        invariant Ran(s0, stamps, f) && files == old(files)
      {
        FrameStep(f, stamps, s0);
      }
      assert stamps[..N_FRAMES] == stamps;
    }

    /** The frame loop of `main` in ends-only mode: N_FRAMES calls of
      `update_sim` on a copy of the initial groups kept aside, then every
      group's file gets the header, the initial state as frame 0 and the
      final state as frame 1. */
    method RunEndsOnly(stamps: seq<seq<Stamp>>)
      requires Valid()
      requires device == groups[..] && elapsed == 0 && queue == []
      requires |stamps| == N_FRAMES
      requires forall f :: 0 <= f < N_FRAMES ==> |stamps[f]| == 4 * N_STEPS && ValidStamps(stamps[f])
      modifies this, groups
      ensures Valid()
      ensures device == AfterFrames(run, N_FRAMES, old(device)) && groups[..] == device
      ensures queue == RunCommands(nGroups, N_FRAMES)
      ensures elapsed == RunTotal(stamps) % TimeFormat.U64
      ensures forall i :: 0 <= i < nGroups ==> files[i] == EndsFile(run, old(device), i)
    {
      ghost var s0 := device;
      var init := groups[..];
      UpdateFrames(stamps);
      for i := 0 to nGroups
        modifies this`files
        invariant Valid()
        invariant forall i' :: 0 <= i' < i ==> files[i'] == EndsFile(run, s0, i')
      {
        OpenCsv(i);
        PrintHeader(i);
        PrintSimOne(i, init[i], 0);
        PrintSimOne(i, groups[i], 1);
        assert files[i] == [Header] + GroupRows(s0[i], 0) + GroupRows(AfterFrames(run, N_FRAMES, s0)[i], 1);
      }
    }

    /** `open_all`: every group's file opened, and empty. */
    method OpenAll()
      requires Valid()
      modifies this`files
      ensures Valid()
      ensures forall i :: 0 <= i < nGroups ==> files[i] == []
    {
      for i := 0 to nGroups
        invariant Valid()
        invariant forall i' :: 0 <= i' < i ==> files[i'] == []
      {
        OpenCsv(i);
      }
    }

    /** The state of the full-trace frame loop after f frames from the
      device copy s0: every file holds the header and frames 0 .. f - 1. */
    ghost predicate Traced(s0: seq<Group>, stamps: seq<seq<Stamp>>, f: nat)
      reads this, groups
    {
      Ran(s0, stamps, f) &&
      forall i :: 0 <= i < nGroups ==> files[i] == TraceUpTo(run, s0, i, f)
    }

    /** One pass of the frame loop in full-trace mode: every group's host
      state written as frame f, then one `update_sim`. */
    method TraceStep(f: nat, stamps: seq<seq<Stamp>>, ghost s0: seq<Group>)
      requires Traced(s0, stamps, f) && f < |stamps|
      requires |stamps[f]| == 4 * N_STEPS && ValidStamps(stamps[f])
      modifies this, groups
      ensures Traced(s0, stamps, f + 1)
    {
      PrintSimAll(f);
      FrameStep(f, stamps, s0);
    }

    /** The frame loop of `main` in full-trace mode, once every file holds
      the header: for each frame f the host state of every group is written
      as frame f before the f-th `update_sim`. */
    method TraceFrames(stamps: seq<seq<Stamp>>)
      requires Valid()
      requires device == groups[..] && elapsed == 0 && queue == []
      requires forall i :: 0 <= i < nGroups ==> files[i] == [Header]
      requires |stamps| == N_FRAMES
      requires forall f :: 0 <= f < N_FRAMES ==> |stamps[f]| == 4 * N_STEPS && ValidStamps(stamps[f])
      modifies this, groups
      ensures Valid()
      ensures device == AfterFrames(run, N_FRAMES, old(device)) && groups[..] == device
      ensures queue == RunCommands(nGroups, N_FRAMES)
      ensures elapsed == RunTotal(stamps) % TimeFormat.U64
      ensures forall i :: 0 <= i < nGroups ==> files[i] == TraceUpTo(run, old(device), i, N_FRAMES)
    {
      ghost var s0 := device;
      assert stamps[..0] == [];
      for f := 0 to N_FRAMES
        invariant Traced(s0, stamps, f)
      {
        TraceStep(f, stamps, s0);
      }
      assert stamps[..N_FRAMES] == stamps;
    }

    /** The frame loop of `main` in full-trace mode: every group's file is
      opened and gets the header; then the frames 0 .. N_FRAMES - 1 and the
      final state as frame N_FRAMES. */
    method RunTrace(stamps: seq<seq<Stamp>>)
      requires Valid()
      requires device == groups[..] && elapsed == 0 && queue == []
      requires |stamps| == N_FRAMES
      requires forall f :: 0 <= f < N_FRAMES ==> |stamps[f]| == 4 * N_STEPS && ValidStamps(stamps[f])
      modifies this, groups
      ensures Valid()
      ensures device == AfterFrames(run, N_FRAMES, old(device)) && groups[..] == device
      ensures queue == RunCommands(nGroups, N_FRAMES)
      ensures elapsed == RunTotal(stamps) % TimeFormat.U64
      ensures forall i :: 0 <= i < nGroups ==> files[i] == TraceFile(run, old(device), i)
    {
      ghost var s0 := device;
      OpenAll();
      for i := 0 to nGroups
        modifies this`files
        invariant Valid()
        invariant forall i' :: 0 <= i' < i ==> files[i'] == [Header]
        invariant forall i' :: i <= i' < nGroups ==> files[i'] == []
      {
        PrintHeader(i);
      }
      TraceFrames(stamps);
      PrintSimAll(N_FRAMES);
    }

    /** `main` after `init_groups` and `init_cl`: the frame loop in either
      mode, then the report of `elapsed` and of its mean over the groups.
      The run issues the commands of N_FRAMES frames, `elapsed` ends as the
      64-bit sum of all their durations, and the report prints that sum and
      the mean, each grouped in thousands. The report uses the corrected
      `PrintTime`; below 10^18 its lines are those `print_time` itself
      writes. */
    method Run(endsOnly: bool, stamps: seq<seq<Stamp>>) returns (sumLine: string, meanLine: string)
      requires Valid() && nGroups >= 1
      requires device == groups[..] && elapsed == 0 && queue == []
      requires |stamps| == N_FRAMES
      requires forall f :: 0 <= f < N_FRAMES ==> |stamps[f]| == 4 * N_STEPS && ValidStamps(stamps[f])
      modifies this, groups
      ensures Valid()
      ensures device == AfterFrames(run, N_FRAMES, old(device)) && groups[..] == device
      ensures queue == RunCommands(nGroups, N_FRAMES)
      ensures elapsed == RunTotal(stamps) % TimeFormat.U64
      ensures !endsOnly ==> forall i :: 0 <= i < nGroups ==> files[i] == TraceFile(run, old(device), i)
      ensures endsOnly ==> forall i :: 0 <= i < nGroups ==> files[i] == EndsFile(run, old(device), i)
      ensures sumLine == TimeFormat.Line("sum", TimeFormat.Grouped(elapsed))
      ensures meanLine == TimeFormat.Line("mean", TimeFormat.Grouped(Mean(elapsed, nGroups)))
      ensures elapsed < TimeFormat.E18 ==>
        TimeFormat.AsWrittenText(elapsed).Some? &&
        sumLine == TimeFormat.Line("sum", TimeFormat.AsWrittenText(elapsed).value)
      ensures elapsed < TimeFormat.E18 ==>
        TimeFormat.AsWrittenText(Mean(elapsed, nGroups)).Some? &&
        meanLine == TimeFormat.Line("mean", TimeFormat.AsWrittenText(Mean(elapsed, nGroups)).value)
    {
      if endsOnly {
        RunEndsOnly(stamps);
      } else {
        RunTrace(stamps);
      }
      sumLine := TimeFormat.PrintTime("sum", elapsed);
      meanLine := TimeFormat.PrintTime("mean", Mean(elapsed, nGroups));
      if elapsed < TimeFormat.E18 {
        TimeFormat.AsWrittenBelowE18(elapsed);
        TimeFormat.AsWrittenBelowE18(Mean(elapsed, nGroups));
      }
    }
  }
}
