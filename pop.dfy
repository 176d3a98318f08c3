/**
 * The racers of the POP playground: birds (FlappyBird, Penguin,
 * SwiftBird, UnladenSwallow) and a Motorcycle, their `canFly`,
 * `description` and `speed` rules, the `topSpeed` fold over a sequence
 * of racers, and the ordering of `RacingScore`.
 */
module POP {
  import opened Wrappers

  /** The three cases of `enum UnladenSwallow`. */
  datatype Swallow = African | European | Unknown

  /**
   * One variant per racer kind. Speeds are exact reals; the airspeeds of
   * FlappyBird and SwiftBird are the values their floating-point
   * formulas produce, carried as given values. SwiftBird's `version`
   * feeds its computed name and its airspeed formula, both left out, so
   * nothing here reads it.
   */
  datatype Racer =
    | FlappyBird(name: string, airspeed: real)
    | Penguin(name: string)
    | SwiftBird(version: real, airspeed: real)
    | UnladenSwallow(kind: Swallow)
    | Motorcycle(name: string, speed: real)

  /** `Motorcycle(name:)`: every new motorcycle goes at 200. */
  function NewMotorcycle(name: string): (r: Racer)
    ensures r.Motorcycle? && r.name == name && Speed(r) == 200.0
  {
    Motorcycle(name, 200.0)
  }

  /**
   * Conformance to `Bird`: every racer kind except the motorcycle, that
   * is, the flyable kinds and the penguin.
   */
  predicate IsBird(r: Racer): (b: bool)
    ensures b <==> IsFlyable(r) || r.Penguin?
  {
    !r.Motorcycle?
  }

  /** Conformance to `Flyable`, a fixed tag per kind; every flyable racer is a bird. */
  predicate IsFlyable(r: Racer): (f: bool)
    ensures f <==> !r.Motorcycle? && !r.Penguin?
  {
    r.FlappyBird? || r.SwiftBird? || r.UnladenSwallow?
  }

  /**
   * The protocol-extension default for `canFly`: `self is Flyable`, so
   * by default every bird but the penguin can fly.
   */
  predicate DefaultCanFly(r: Racer): (b: bool)
    requires IsBird(r)
    ensures b <==> !r.Penguin?
  {
    IsFlyable(r)
  }

  /**
   * `canFly`: FlappyBird and Penguin store it (true and false), SwiftBird
   * takes the default, UnladenSwallow overrides it with "not unknown".
   */
  predicate CanFly(r: Racer): (b: bool)
    requires IsBird(r)
    ensures b <==> IsFlyable(r) && r != UnladenSwallow(Unknown)
  {
    match r
    case FlappyBird(_, _) => true
    case Penguin(_) => false
    case SwiftBird(_, _) => DefaultCanFly(r)
    case UnladenSwallow(k) => k != Unknown
  }

  /** The stored and overriding rules agree with the default except for `.unknown`. */
  lemma CanFlyIsDefaultExceptUnknown(r: Racer)
    requires IsBird(r)
    ensures CanFly(r) == DefaultCanFly(r) <==> r != UnladenSwallow(Unknown)
  {
  }

  /** An unladen swallow can fly exactly when its kind is known. */
  lemma SwallowCanFly(k: Swallow)
    ensures CanFly(UnladenSwallow(k)) <==> k != Unknown
    ensures CanFly(UnladenSwallow(African)) && CanFly(UnladenSwallow(European))
  {
  }

  /**
   * `airspeedVelocity` of a `Flyable` racer. For `.unknown` the source
   * calls `fatalError`: the precondition keeps every caller away from it.
   */
  function AirspeedVelocity(r: Racer): (v: real)
    requires IsFlyable(r) && r != UnladenSwallow(Unknown)
    ensures r.UnladenSwallow? ==> v > 0.0
  {
    match r
    case FlappyBird(_, a) => a
    case SwiftBird(_, a) => a
    case UnladenSwallow(k) => if k == African then 10.0 else 9.9
  }

  /**
   * `speed` (the `Racer` conformances). Evaluating it never reaches the
   * `fatalError` of `.unknown`: it asks for the airspeed only of a
   * swallow that can fly.
   */
  function Speed(r: Racer): (s: real)
    ensures IsFlyable(r) && CanFly(r) ==> s == AirspeedVelocity(r)
    ensures r.UnladenSwallow? && !CanFly(r) ==> s == 0.0
  {
    match r
    case FlappyBird(_, _) => AirspeedVelocity(r)
    case SwiftBird(_, _) => AirspeedVelocity(r)
    case Penguin(_) => 42.0
    case UnladenSwallow(_) => if CanFly(r) then AirspeedVelocity(r) else 0.0
    case Motorcycle(_, s) => s
  }

  /** A swallow stands still exactly when it cannot fly. */
  lemma SwallowSpeedZeroIffGrounded(k: Swallow)
    ensures Speed(UnladenSwallow(k)) == 0.0 <==> !CanFly(UnladenSwallow(k))
  {
  }

  /** A penguin cannot fly yet waddles at 42. */
  lemma PenguinWaddles(name: string)
    ensures !CanFly(Penguin(name)) && Speed(Penguin(name)) == 42.0
  {
  }

  /**
   * The loop of `max(by: { $0.speed < $1.speed })`: start from the first
   * element and replace the running result by each later element that is
   * strictly faster. The result is the start, or else the first element
   * of `rest` that no element outruns; it is then strictly faster than
   * the start and than every element before it.
   */
  function MaxFrom(best: Racer, rest: seq<Racer>): (m: Racer)
    ensures m == best || m in rest
    ensures Speed(best) <= Speed(m)
    ensures forall i :: 0 <= i < |rest| ==> Speed(rest[i]) <= Speed(m)
    ensures m == best || exists i :: 0 <= i < |rest| && rest[i] == m && Speed(best) < Speed(m) &&
                                     forall j :: 0 <= j < i ==> Speed(rest[j]) < Speed(m)
    decreases |rest|
  {
    if rest == [] then best
    else MaxFrom(if Speed(best) < Speed(rest[0]) then rest[0] else best, rest[1..])
  }

  /** `max(by:)` over the speeds: `nil` for an empty sequence. */
  function MaxBySpeed(racers: seq<Racer>): (m: Option<Racer>)
    ensures m == None <==> racers == []
    ensures m.Some? ==> m.value in racers
    ensures m.Some? ==> forall i :: 0 <= i < |racers| ==> Speed(racers[i]) <= Speed(m.value)
  {
    if racers == [] then None else Some(MaxFrom(racers[0], racers[1..]))
  }

  /**
   * `topSpeed(of:)`: the greatest speed of any racer in the sequence, or
   * 0.0 when it is empty.
   */
  function TopSpeedOf(racers: seq<Racer>): (t: real)
    ensures racers == [] ==> t == 0.0
    ensures racers != [] ==> exists i :: 0 <= i < |racers| && Speed(racers[i]) == t
    ensures forall i :: 0 <= i < |racers| ==> Speed(racers[i]) <= t
  {
    match MaxBySpeed(racers)
    case Some(m) => Speed(m)
    case None => 0.0
  }

  /**
   * The `Sequence` extension's `topSpeed()`: the reference maximum of the
   * speeds, or 0.0 when the sequence is empty.
   */
  function SequenceTopSpeed(racers: seq<Racer>): (t: real)
    ensures racers == [] ==> t == 0.0
    ensures racers != [] ==> t == MaxSpeed(racers)
  {
    match MaxBySpeed(racers)
    case Some(m) =>
      MaxSpeedIsMaximum(racers);
      Speed(m)
    case None => 0.0
  }

  /** A reference maximum of the speeds of a non-empty sequence, folded from the right. */
  function MaxSpeed(racers: seq<Racer>): real
    requires racers != []
    decreases |racers|
  {
    if |racers| == 1 then Speed(racers[0])
    else
      var m := MaxSpeed(racers[1..]);
      if Speed(racers[0]) < m then m else Speed(racers[0])
  }

  /** The reference maximum bounds every speed and is attained. */
  lemma {:induction false} MaxSpeedIsMaximum(racers: seq<Racer>)
    requires racers != []
    ensures exists i :: 0 <= i < |racers| && Speed(racers[i]) == MaxSpeed(racers)
    ensures forall i :: 0 <= i < |racers| ==> Speed(racers[i]) <= MaxSpeed(racers)
    decreases |racers|
  {
    if |racers| > 1 {
      MaxSpeedIsMaximum(racers[1..]);
      var j :| 0 <= j < |racers[1..]| && Speed(racers[1..][j]) == MaxSpeed(racers[1..]);
      assert Speed(racers[j + 1]) == MaxSpeed(racers[1..]);
      var w := if Speed(racers[0]) < MaxSpeed(racers[1..]) then j + 1 else 0;
      assert Speed(racers[w]) == MaxSpeed(racers);
      forall i | 1 <= i < |racers|
        ensures Speed(racers[i]) <= MaxSpeed(racers)
      {
        assert racers[i] == racers[1..][i - 1];
      }
    } else {
      assert Speed(racers[0]) == MaxSpeed(racers);
    }
  }

  /**
   * The free function and the extension give the same answer on every
   * sequence, and both are the maximum speed (0.0 when empty).
   */
  lemma TopSpeedAgree(racers: seq<Racer>)
    ensures TopSpeedOf(racers) == SequenceTopSpeed(racers)
    ensures TopSpeedOf(racers) == if racers == [] then 0.0 else MaxSpeed(racers)
  {
  }

  /**
   * The playground's `racers` list: seven racers, all birds but the last,
   * and every bird can fly except the unknown swallow and the penguin.
   */
  function ExampleRacers(): (rs: seq<Racer>)
    ensures |rs| == 7
    ensures forall i | 0 <= i < |rs| :: IsBird(rs[i]) <==> i != 6
    ensures forall i | 0 <= i < 6 :: CanFly(rs[i]) <==> i != 2 && i != 3
  {
    [ UnladenSwallow(African),
      UnladenSwallow(European),
      UnladenSwallow(Unknown),
      Penguin("King Penguin"),
      SwiftBird(5.1, 5100.0),
      FlappyBird("Felipe", 180.0),
      NewMotorcycle("Giacomo") ]
  }

  /** `topSpeed(of: racers)` and `racers.topSpeed()` are 5100; on `racers[1...3]` they are 42. */
  lemma TopSpeedExamples()
    ensures TopSpeedOf(ExampleRacers()) == 5100.0
    ensures SequenceTopSpeed(ExampleRacers()) == 5100.0
    ensures TopSpeedOf(ExampleRacers()[1..4]) == 42.0
    ensures SequenceTopSpeed(ExampleRacers()[1..4]) == 42.0
  {
    var rs := ExampleRacers();
    assert Speed(rs[4]) == 5100.0;
    var part := rs[1..4];
    assert part == [UnladenSwallow(European), UnladenSwallow(Unknown), Penguin("King Penguin")];
    assert Speed(part[2]) == 42.0;
    TopSpeedAgree(part);
    TopSpeedAgree(rs);
  }

  /** The empty sequence's top speed is 0.0. */
  lemma TopSpeedEmpty()
    ensures TopSpeedOf([]) == 0.0 && SequenceTopSpeed([]) == 0.0
  {
  }

  /** `description` of a bird, decided by `canFly`. */
  function Description(r: Racer): (d: string)
    requires IsBird(r)
    ensures d == "I can fly" <==> CanFly(r)
    ensures !CanFly(r) ==> d == "Guess I'll just sit here :["
  {
    if CanFly(r) then "I can fly" else "Guess I'll just sit here :["
  }

  // ---------------------------------------------------------------------
  // RacingScore
  // ---------------------------------------------------------------------

  datatype RacingScore = RacingScore(value: int)

  /**
   * The `<` that `RacingScore` defines, by `value`: it is strict, and of
   * two different scores one is below the other.
   */
  predicate Less(a: RacingScore, b: RacingScore): (lt: bool)
    ensures lt ==> a != b
    ensures !lt && a != b ==> b.value < a.value
  {
    a.value < b.value
  }

  /** `Comparable`'s derived `>=`, `!(a < b)`: it compares the values. */
  predicate GreaterOrEqual(a: RacingScore, b: RacingScore): (ge: bool)
    ensures ge <==> a.value >= b.value
  {
    !Less(a, b)
  }

  /** `<` is a strict total order on scores, as `Comparable` demands. */
  lemma LessIsStrictTotalOrder(a: RacingScore, b: RacingScore, c: RacingScore)
    ensures !Less(a, a)
    ensures Less(a, b) ==> !Less(b, a)
    ensures Less(a, b) && Less(b, c) ==> Less(a, c)
    ensures Less(a, b) || Less(b, a) || a == b
  {
  }

  /** `RacingScore(value: 150) >= RacingScore(value: 130)` is true. */
  lemma ScoreExample()
    ensures GreaterOrEqual(RacingScore(150), RacingScore(130))
    ensures !GreaterOrEqual(RacingScore(130), RacingScore(150))
  {
  }
}
