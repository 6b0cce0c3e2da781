/** The state of the simulation on the host: one `struct group` per
    independent instance, a wire and N_BEADS beads, and `init_groups`, which
    fills the freshly allocated group buffer before the run.

    Floats are kept as their IEEE-754 bit patterns and never computed with:
    the model follows which value goes where, not what the float arithmetic
    yields. */
module Groups {

  const N_BEADS: nat := 8

  /** A `float`, as its bit pattern. */
  type F32 = bv32

  /** A `double` returned by `drand48`, as its bit pattern. */
  type F64 = bv64

  /** 0.0f, 0.8f and 0.1f. */
  const ZERO: F32 := 0x0000_0000
  const WIRE_RADIUS: F32 := 0x3F4C_CCCD
  const FIRST_RADIUS: F32 := 0x3DCC_CCCD

  datatype Float2 = Float2(x: F32, y: F32)

  /** One float per bead: the fixed-size `float [N_BEADS]` arrays. */
  type BeadScalars = s: seq<F32> | |s| == N_BEADS
    witness [ZERO, ZERO, ZERO, ZERO, ZERO, ZERO, ZERO, ZERO]

  /** One point per bead: the fixed-size `float2 [N_BEADS]` arrays. */
  type BeadPoints = s: seq<Float2> | |s| == N_BEADS
    witness seq(N_BEADS, _ => Float2(ZERO, ZERO))

  datatype Wire = Wire(pos: Float2, radius: F32)

  datatype Group = Group(
    wire: Wire,
    beadsRadius: BeadScalars,
    beadsMass: BeadScalars,
    beadsPos: BeadPoints,
    beadsPrevPos: BeadPoints,
    beadsNextPos: BeadPoints,
    beadsVel: BeadPoints)

  /** The wire every group starts with: centre (0, 0), radius 0.8. */
  const InitialWire: Wire := Wire(Float2(ZERO, ZERO), WIRE_RADIUS)

  /** The float computations of `init_groups`, which the model does not
      evaluate: the radius (between 0.05 and 0.15) made from a draw, the
      disc area used as the mass of a radius, and the point on the initial
      wire at the j-th of N_BEADS equal angular steps of half a turn. */
  datatype FloatOps = FloatOps(
    radiusOf: F64 -> F32,
    massOf: F32 -> F32,
    placeAt: nat -> Float2)

  /** The position, counted from 0, in the `drand48` stream restarted by
      `srand48(100)` of the draw that sets the radius of bead j >= 1 of
      group i: each group makes N_BEADS draws, one at the end of each bead,
      and bead j takes the one made at the end of bead j - 1. */
  function DrawIndex(i: nat, j: nat): nat
    requires 1 <= j < N_BEADS
  {
    N_BEADS * i + j - 1
  }

  /** The radius `init_groups` gives bead j of group i: 0.1 for bead 0, the
      radius made from its draw for the others. */
  function BeadRadius(i: nat, j: nat, draw: nat -> F64, ops: FloatOps): F32
    requires j < N_BEADS
  {
    if j == 0 then FIRST_RADIUS else ops.radiusOf(draw(DrawIndex(i, j)))
  }

  /** No two beads share a draw. */
  lemma DrawIndexInjective(i1: nat, j1: nat, i2: nat, j2: nat)
    requires 1 <= j1 < N_BEADS && 1 <= j2 < N_BEADS
    requires DrawIndex(i1, j1) == DrawIndex(i2, j2)
    ensures i1 == i2 && j1 == j2
  {
  }

  /** Of the draws 8i .. 8i + 7 made while group i is filled, the first
      seven set the radii of beads 1 .. 7 in order, and the last, 8i + 7, is
      made on the last iteration and discarded. */
  lemma DrawUse(k: nat)
    ensures k % N_BEADS != N_BEADS - 1 ==>
      1 <= k % N_BEADS + 1 < N_BEADS && DrawIndex(k / N_BEADS, k % N_BEADS + 1) == k
    ensures k % N_BEADS == N_BEADS - 1 ==>
      forall i: nat, j: nat {:trigger DrawIndex(i, j)} :: 1 <= j < N_BEADS ==> DrawIndex(i, j) != k
  {
    if k % N_BEADS == N_BEADS - 1 {
      forall i: nat, j: nat | 1 <= j < N_BEADS
        ensures DrawIndex(i, j) != k
      {
        assert DrawIndex(i, j) % N_BEADS == j - 1;
      }
    }
  }

  /** The discarded draws do not matter: two draw streams that differ only
      at the last draw of each group give every bead the same radius. */
  lemma DiscardedDrawsUnused(draw1: nat -> F64, draw2: nat -> F64, ops: FloatOps)
    requires forall k: nat :: k % N_BEADS != N_BEADS - 1 ==> draw1(k) == draw2(k)
    ensures forall i: nat, j: nat :: j < N_BEADS ==> BeadRadius(i, j, draw1, ops) == BeadRadius(i, j, draw2, ops)
  {
    forall i: nat, j: nat | j < N_BEADS
      ensures BeadRadius(i, j, draw1, ops) == BeadRadius(i, j, draw2, ops)
    {
      if j > 0 {
        assert DrawIndex(i, j) % N_BEADS == j - 1;
      }
    }
  }

  /** Bead j of g (of group i) as `init_groups` leaves it: its radius, the
      mass of that radius and the j-th place on the wire. */
  predicate BeadInitial(g: Group, i: nat, j: nat, draw: nat -> F64, ops: FloatOps)
    requires j < N_BEADS
  {
    g.beadsRadius[j] == BeadRadius(i, j, draw, ops) &&
    g.beadsMass[j] == ops.massOf(BeadRadius(i, j, draw, ops)) &&
    g.beadsPos[j] == ops.placeAt(j)
  }

  /** Group g, which was `before`, as `init_groups` leaves group i: the
      initial wire, every bead initial, and the previous and next positions
      and the velocities as the allocation found them. */
  predicate GroupInitial(g: Group, before: Group, i: nat, draw: nat -> F64, ops: FloatOps)
  {
    g.wire == InitialWire &&
    g.beadsPrevPos == before.beadsPrevPos &&
    g.beadsNextPos == before.beadsNextPos &&
    g.beadsVel == before.beadsVel &&
    forall j :: 0 <= j < N_BEADS ==> BeadInitial(g, i, j, draw, ops)
  }

  /** `init_groups`: every group gets the initial wire; bead j gets its
      radius (0.1 for bead 0, the radius of draw DrawIndex(i, j) for the
      others), the mass of that radius and the j-th place on the wire. The
      previous and next positions and the velocities are left as the
      allocation found them. `drawn` is how far the stream has advanced:
      N_BEADS draws per group, the last of each discarded. */
  method InitGroups(groups: array<Group>, draw: nat -> F64, ops: FloatOps) returns (drawn: nat)
    modifies groups
    ensures drawn == N_BEADS * groups.Length
    ensures forall i :: 0 <= i < groups.Length ==> GroupInitial(groups[i], old(groups[i]), i, draw, ops)
  {
    drawn := 0;
    for i := 0 to groups.Length
      invariant drawn == N_BEADS * i
      invariant forall i' :: i <= i' < groups.Length ==> groups[i'] == old(groups[i'])
      invariant forall i' :: 0 <= i' < i ==> GroupInitial(groups[i'], old(groups[i']), i', draw, ops)
    {
      var g := groups[i].(wire := InitialWire);
      var r := FIRST_RADIUS;
      for j := 0 to N_BEADS
        invariant drawn == N_BEADS * i + j
        invariant g.wire == InitialWire
        invariant g.beadsPrevPos == groups[i].beadsPrevPos && g.beadsNextPos == groups[i].beadsNextPos
        invariant g.beadsVel == groups[i].beadsVel
        invariant j < N_BEADS ==> r == BeadRadius(i, j, draw, ops)
        invariant forall j' :: 0 <= j' < j ==> BeadInitial(g, i, j', draw, ops)
      {
        ghost var before := g;
        g := g.(beadsRadius := g.beadsRadius[j := r],
                beadsMass := g.beadsMass[j := ops.massOf(r)],
                beadsPos := g.beadsPos[j := ops.placeAt(j)]);
        forall j' | 0 <= j' <= j
          ensures BeadInitial(g, i, j', draw, ops)
        {
          if j' < j {
            assert BeadInitial(before, i, j', draw, ops);
          }
        }
        // the radius of the next bead comes from the next draw of the stream
        r := ops.radiusOf(draw(drawn));
        drawn := drawn + 1;
      }
      groups[i] := g;
    }
  }
}
