/** `thor::ParticleSystem`: a list of particles together with the affectors and emitters that act
    on them. Affectors and emitters are user objects behind shared pointers: the model knows them
    by their pointers, what an affector does to a particle is a function parameter, and what the
    emitters emit during one update is given as a sequence of particles. */
module Particles {
  import opened VectorAlgebra
  import opened Ownership

  /** `thor::Particle`. The colour is an opaque value that the system carries along. */
  datatype Particle = Particle(
    position: Vector2, velocity: Vector2, rotation: real, rotationSpeed: real,
    scale: Vector2, color: nat, passedLifetime: real, totalLifetime: real)

  /** A particle is alive while its passed lifetime is below its total lifetime. */
  predicate Alive(p: Particle)
  {
    p.passedLifetime < p.totalLifetime
  }

  /** `UpdateParticle(particle, dt)`: the particle aged by `dt`, moved along its velocity and turned
      at its rotation speed. */
  function UpdateParticle(p: Particle, dt: real): (q: Particle)
    ensures q.passedLifetime == p.passedLifetime + dt && q.totalLifetime == p.totalLifetime
    ensures q.velocity == p.velocity && q.rotationSpeed == p.rotationSpeed
    ensures q.scale == p.scale && q.color == p.color
  {
    p.(passedLifetime := p.passedLifetime + dt,
       position := Add(p.position, Scale(dt, p.velocity)),
       rotation := p.rotation + dt * p.rotationSpeed)
  }

  /** Updating by `a` and then by `b` is updating by `a + b`, and updating by zero changes nothing. */
  lemma UpdateParticleComposes(p: Particle, a: real, b: real)
    ensures UpdateParticle(UpdateParticle(p, a), b) == UpdateParticle(p, a + b)
    ensures UpdateParticle(p, 0.0) == p
  {
    assert a * p.rotationSpeed + b * p.rotationSpeed == (a + b) * p.rotationSpeed;
    assert a * p.velocity.x + b * p.velocity.x == (a + b) * p.velocity.x;
    assert a * p.velocity.y + b * p.velocity.y == (a + b) * p.velocity.y;
  }

  /** What an affector does to one particle during an update of length `dt` (`Affector::Affect`). */
  type AffectFn = (Pointer, Particle, real) -> Particle

  /** The particle after every affector, in list order, has acted on it. */
  function Affected(p: Particle, affectors: seq<Pointer>, affect: AffectFn, dt: real): Particle
  {
    if affectors == [] then p
    else affect(affectors[|affectors| - 1], Affected(p, affectors[..|affectors| - 1], affect, dt), dt)
  }

  /** The particles that survive one update, in their original order: each one aged, kept if it is
      still alive, and then acted on by the affectors. */
  function Survivors(ps: seq<Particle>, dt: real, affectors: seq<Pointer>, affect: AffectFn): (r: seq<Particle>)
    ensures |r| <= |ps|
  {
    if ps == [] then []
    else
      var aged := UpdateParticle(ps[|ps| - 1], dt);
      Survivors(ps[..|ps| - 1], dt, affectors, affect) +
        (if Alive(aged) then [Affected(aged, affectors, affect, dt)] else [])
  }

  /** Survivors of a concatenation: the survivors of each part, in order. So an update keeps the
      relative order of the particles. */
  lemma {:induction false} SurvivorsAppend(a: seq<Particle>, b: seq<Particle>, dt: real, affectors: seq<Pointer>, affect: AffectFn)
    ensures Survivors(a + b, dt, affectors, affect) == Survivors(a, dt, affectors, affect) + Survivors(b, dt, affectors, affect)
    decreases |b|
  {
    if b == [] {
      assert a + b == a;
    } else {
      var last := b[|b| - 1];
      assert (a + b)[..|a + b| - 1] == a + b[..|b| - 1];
      SurvivorsAppend(a, b[..|b| - 1], dt, affectors, affect);
    }
  }

  /** Without affectors, the survivors are exactly the aged particles that are still alive: every
      one of them is alive, and no aged particle that is alive is dropped. */
  lemma {:induction false} SurvivorsWithoutAffectors(ps: seq<Particle>, dt: real, affect: AffectFn)
    ensures forall q :: q in Survivors(ps, dt, [], affect) ==> Alive(q)
    ensures forall i :: 0 <= i < |ps| && Alive(UpdateParticle(ps[i], dt)) ==> UpdateParticle(ps[i], dt) in Survivors(ps, dt, [], affect)
  {
    if ps != [] {
      var front := ps[..|ps| - 1];
      SurvivorsWithoutAffectors(front, dt, affect);
      forall i | 0 <= i < |ps| - 1
        ensures ps[i] == front[i]
      {
      }
    }
  }

  /** A particle list is kept whole when every particle is still alive after the update and there
      are no affectors; it becomes empty when every particle has expired. */
  lemma {:induction false} SurvivorsExtremes(ps: seq<Particle>, dt: real, affect: AffectFn)
    ensures (forall i :: 0 <= i < |ps| ==> !Alive(UpdateParticle(ps[i], dt))) ==> Survivors(ps, dt, [], affect) == []
    ensures (forall i :: 0 <= i < |ps| ==> Alive(UpdateParticle(ps[i], dt))) ==>
      |Survivors(ps, dt, [], affect)| == |ps|
  {
    if ps != [] {
      var front := ps[..|ps| - 1];
      SurvivorsExtremes(front, dt, affect);
      assert forall i :: 0 <= i < |front| ==> front[i] == ps[i];
    }
  }

  /** `std::find` over a list of pointers: the first position holding `x`, or the end. */
  method Find(s: seq<Pointer>, x: Pointer) returns (i: nat)
    ensures i <= |s|
    ensures i < |s| ==> s[i] == x
    ensures forall j :: 0 <= j < i ==> s[j] != x
  {
    i := 0;
    while i < |s| && s[i] != x
      invariant i <= |s|
      invariant forall j :: 0 <= j < i ==> s[j] != x
    {
      i := i + 1;
    }
  }

  /** No pointer in the list is NULL, and none appears twice. */
  ghost predicate DistinctObjects(s: seq<Pointer>)
  {
    (forall i :: 0 <= i < |s| ==> s[i].Object?) &&
    (forall i, j :: 0 <= i < j < |s| ==> s[i] != s[j])
  }

  class ParticleSystem {
    /** `mParticles`. */
    var particles: seq<Particle>
    /** `mAffectors`. */
    var affectors: seq<Pointer>
    /** `mEmitters`. */
    var emitters: seq<Pointer>
    /** `mTexture`, the particle texture made from the image. */
    var texture: nat
    /** `mGlow`. */
    var glow: bool

    /** What the assertions in `AddAffector` and `AddEmitter` keep: no NULL and no duplicate. */
    ghost predicate Valid()
      reads this
    {
      DistinctObjects(affectors) && DistinctObjects(emitters)
    }

    /** `ParticleSystem(particleImage, particleRect)`: no particles, affectors or emitters, no glow. */
    constructor (texture: nat)
      ensures Valid()
      ensures particles == [] && affectors == [] && emitters == []
      ensures this.texture == texture && !glow
    {
      particles, affectors, emitters := [], [], [];
      this.texture, glow := texture, false;
    }

    /** `Swap(other)`: exchanges particles, affectors, emitters, texture and glow flag. */
    method Swap(other: ParticleSystem)
      modifies this, other
      ensures particles == old(other.particles) && other.particles == old(particles)
      ensures affectors == old(other.affectors) && other.affectors == old(affectors)
      ensures emitters == old(other.emitters) && other.emitters == old(emitters)
      ensures texture == old(other.texture) && other.texture == old(texture)
      ensures glow == old(other.glow) && other.glow == old(glow)
    {
      particles, other.particles := other.particles, particles;
      affectors, other.affectors := other.affectors, affectors;
      emitters, other.emitters := other.emitters, emitters;
      texture, other.texture := other.texture, texture;
      glow, other.glow := other.glow, glow;
    }

    /** `ContainsAffector(affector)`: list membership. */
    method ContainsAffector(affector: Pointer) returns (r: bool)
      ensures r <==> affector in affectors
    {
      var i := Find(affectors, affector);
      r := i != |affectors|;
    }

    /** `AddAffector(affector)`: a non-NULL affector that is not in the list yet goes to the back. */
    method AddAffector(affector: Pointer)
      requires Valid() && affector.Object? && affector !in affectors
      modifies this
      ensures Valid() && affectors == old(affectors) + [affector]
      ensures particles == old(particles) && emitters == old(emitters)
      ensures texture == old(texture) && glow == old(glow)
    {
      affectors := affectors + [affector];
    }

    /** `RemoveAffector(affector)`: the affector must be in the list; it is erased from its position
        and the others keep their order. */
    method RemoveAffector(affector: Pointer)
      requires Valid() && affector in affectors
      modifies this
      ensures Valid() && affector !in affectors
      ensures exists i :: (0 <= i < |old(affectors)| && old(affectors)[i] == affector &&
        affectors == old(affectors)[..i] + old(affectors)[i + 1..])
      ensures particles == old(particles) && emitters == old(emitters)
      ensures texture == old(texture) && glow == old(glow)
    {
      var i := Find(affectors, affector);
      ghost var before := affectors;
      affectors := affectors[..i] + affectors[i + 1..];
      assert forall j :: 0 <= j < |affectors| ==> affectors[j] == before[if j < i then j else j + 1];
    }

    /** `ClearAffectors()`. */
    method ClearAffectors()
      requires Valid()
      modifies this
      ensures Valid() && affectors == []
      ensures particles == old(particles) && emitters == old(emitters)
      ensures texture == old(texture) && glow == old(glow)
    {
      affectors := [];
    }

    /** `ContainsEmitter(emitter)`: list membership. */
    method ContainsEmitter(emitter: Pointer) returns (r: bool)
      ensures r <==> emitter in emitters
    {
      var i := Find(emitters, emitter);
      r := i != |emitters|;
    }

    /** `AddEmitter(emitter)`: a non-NULL emitter that is not in the list yet goes to the back. */
    method AddEmitter(emitter: Pointer)
      requires Valid() && emitter.Object? && emitter !in emitters
      modifies this
      ensures Valid() && emitters == old(emitters) + [emitter]
      ensures particles == old(particles) && affectors == old(affectors)
      ensures texture == old(texture) && glow == old(glow)
    {
      emitters := emitters + [emitter];
    }

    /** `RemoveEmitter(emitter)`: the emitter must be in the list; it is erased from its position and
        the others keep their order. */
    method RemoveEmitter(emitter: Pointer)
      requires Valid() && emitter in emitters
      modifies this
      ensures Valid() && emitter !in emitters
      ensures exists i :: (0 <= i < |old(emitters)| && old(emitters)[i] == emitter &&
        emitters == old(emitters)[..i] + old(emitters)[i + 1..])
      ensures particles == old(particles) && affectors == old(affectors)
      ensures texture == old(texture) && glow == old(glow)
    {
      var i := Find(emitters, emitter);
      ghost var before := emitters;
      emitters := emitters[..i] + emitters[i + 1..];
      assert forall j :: 0 <= j < |emitters| ==> emitters[j] == before[if j < i then j else j + 1];
    }

    /** `ClearEmitters()`. */
    method ClearEmitters()
      requires Valid()
      modifies this
      ensures Valid() && emitters == []
      ensures particles == old(particles) && affectors == old(affectors)
      ensures texture == old(texture) && glow == old(glow)
    {
      emitters := [];
    }

    /** `AddParticle(particle)`, the emitters' way to add a particle. */
    method AddParticle(particle: Particle)
      modifies this
      ensures particles == old(particles) + [particle]
      ensures affectors == old(affectors) && emitters == old(emitters)
      ensures texture == old(texture) && glow == old(glow)
    {
      particles := particles + [particle];
    }

    /** `Update(dt)`. The emitters first add `emitted`; then one pass with a reader and a writer
        position ages every particle, lets the affectors act on those still alive and moves them to
        the writer position; the tail behind the writer is erased. */
    method Update(dt: real, emitted: seq<Particle>, affect: AffectFn)
      modifies this
      ensures particles == Survivors(old(particles) + emitted, dt, affectors, affect)
      ensures affectors == old(affectors) && emitters == old(emitters)
      ensures texture == old(texture) && glow == old(glow)
    {
      particles := particles + emitted;
      ghost var original := particles;
      var writer := 0;
      var reader := 0;
      while reader < |particles|
        invariant writer <= reader <= |particles| == |original|
        invariant particles[reader..] == original[reader..]
        invariant particles[..writer] == Survivors(original[..reader], dt, affectors, affect)
        invariant affectors == old(affectors) && emitters == old(emitters)
        invariant texture == old(texture) && glow == old(glow)
      {
        var current := UpdateParticle(particles[reader], dt);
        if Alive(current) {
          var k := 0;
          while k < |affectors|
            invariant k <= |affectors|
            invariant Alive(UpdateParticle(original[reader], dt))
            invariant current == Affected(UpdateParticle(original[reader], dt), affectors[..k], affect, dt)
          {
            assert affectors[..k + 1][..k] == affectors[..k];
            current := affect(affectors[k], current, dt);
            k := k + 1;
          }
          assert affectors[..k] == affectors;
          particles := particles[writer := current];
          writer := writer + 1;
        }
        assert original[..reader + 1][..reader] == original[..reader];
        reader := reader + 1;
      }
      assert original[..reader] == original;
      particles := particles[..writer];
    }

    /** `ClearParticles()`. */
    method ClearParticles()
      modifies this
      ensures particles == []
      ensures affectors == old(affectors) && emitters == old(emitters)
      ensures texture == old(texture) && glow == old(glow)
    {
      particles := [];
    }

    /** `SetGlowing(glow)`. */
    method SetGlowing(glowing: bool)
      modifies this
      ensures glow == glowing
      ensures particles == old(particles) && affectors == old(affectors) && emitters == old(emitters)
      ensures texture == old(texture)
    {
      glow := glowing;
    }

    /** `IsGlowing()`. */
    function IsGlowing(): (r: bool)
      reads this
      ensures r == glow
    {
      glow
    }
  }
}
