# Generic queue, generic functions and protocol-oriented racers

A Dafny model of the two Swift playgrounds' reusable logic.

- **GenericType** (`generic_type.dfy`): the generic FIFO `Queue` is a class whose `elements` sequence is changed in place by `Enqueue` (append at the back) and `Dequeue` (`None` on an empty queue, else remove and return the front). `Peek` reads the front without changing anything. Two client methods replay the playground's run and state the FIFO law for any input. `mid` is modelled over integers. It sorts a copy with a verified insertion sort. The sort's result is proved to be the unique sorted permutation, so it agrees with any other sort. The median is then pinned down by rank: at most `(n-1)/2` elements lie below it and at most `n/2` above. `pairs` becomes a sequence holding each dictionary entry exactly once, in no promised order. `add` is modelled for `Int`, where overflow is Swift's trap, and for `String`, where it is concatenation.
- **POP** (`pop.dfy`): the racers are one datatype with a variant per kind. The `Bird` and `Flyable` conformances are fixed per-kind predicates (`IsBird`, `IsFlyable`) computed from the variant. `CanFly` applies the stored, default and overriding `canFly` rules. `Speed` applies the per-kind `speed` rules. `TopSpeedOf` and `SequenceTopSpeed` fold `max(by:)` over speeds the same way the library does, with the `?? 0.0` default. `Description` and the `RacingScore` ordering complete the module.
- `wrappers.dfy` holds the `Option` type that stands for Swift's optionals.

## Model

| member | source | states |
|---|---|---|
| GenericType.Queue.constructor | GenericType/GenericType.playground/Contents.swift:5-6 | a new queue has no elements |
| GenericType.Queue.Enqueue | GenericType/GenericType.playground/Contents.swift:8-10 | the new element is appended at the back; the length grows by one and the earlier elements are untouched |
| GenericType.Queue.Dequeue | GenericType/GenericType.playground/Contents.swift:12-15 | on an empty queue returns `None` and leaves it unchanged; otherwise returns the old front element and leaves exactly the old elements after it |
| GenericType.Queue.Peek | GenericType/GenericType.playground/Contents.swift:33-37 | `None` exactly when the queue is empty, else the front element; as a function it changes nothing |
| GenericType.FifoExample | GenericType/GenericType.playground/Contents.swift:18-41 | enqueue 4, 2 then three dequeues give 4, 2, `None`; after enqueueing 5 and 3, peek gives 5 |
| GenericType.FillThenDrain | GenericType/GenericType.playground/Contents.swift:5-16 | FIFO law: enqueueing any sequence and dequeueing as many times returns that sequence in order, and the next dequeue returns `None` |
| GenericType.Sort | GenericType/GenericType.playground/Contents.swift:59 | `sorted()` on integers: the result is ascending and a permutation of the input |
| GenericType.SortedPermutationUnique | GenericType/GenericType.playground/Contents.swift:59 | two sorted permutations of the same elements are equal, so any correct sort gives the same copy |
| GenericType.Mid | GenericType/GenericType.playground/Contents.swift:57-60 | `None` exactly for the empty array; otherwise an element of the array with at most `(n-1)/2` elements below and at most `n/2` above it (the lower median) |
| GenericType.MidOfSortedCopy | GenericType/GenericType.playground/Contents.swift:57-60 | for every sorted copy `t` of a non-empty array, `mid` is `t[(n-1)/2]` |
| GenericType.MidRankUnique | GenericType/GenericType.playground/Contents.swift:57-60 | any element meeting those rank bounds is the value `mid` returns, so the bounds determine it |
| GenericType.MidExample | GenericType/GenericType.playground/Contents.swift:61 | `mid([3, 5, 1, 2, 4])` is 3 |
| GenericType.Pairs | GenericType/GenericType.playground/Contents.swift:44-46 | one tuple per key; every tuple `(k, v)` has `d[k] == v`; every entry occurs; no key occurs twice |
| GenericType.PairsAreItems | GenericType/GenericType.playground/Contents.swift:44-46 | the set of output tuples is exactly the dictionary's set of entries |
| GenericType.AddInt | GenericType/GenericType.playground/Contents.swift:69-71 | at 64-bit `Int`: the mathematical sum when it fits, and the overflow trap (`None`) exactly when it does not |
| GenericType.AddString | GenericType/GenericType.playground/Contents.swift:69-71 | at `String`: the result is `x` followed by `y` |
| GenericType.AddStringExample | GenericType/GenericType.playground/Contents.swift:76 | `add("Generics", " are Awesome!!! :]")` is `"Generics are Awesome!!! :]"` |
| POP.NewMotorcycle | POP/POP.playground/Contents.swift:102-106 | a new motorcycle keeps its name and goes at 200 |
| POP.IsBird | POP/POP.playground/Contents.swift:3-6 | the `Bird` conformers are exactly the flyable kinds and the penguin; the motorcycle is not a bird |
| POP.IsFlyable | POP/POP.playground/Contents.swift:8-10 | the `Flyable` conformers (FlappyBird, SwiftBird, UnladenSwallow) are exactly the birds other than the penguin |
| POP.DefaultCanFly | POP/POP.playground/Contents.swift:45-48 | the default `self is Flyable` lets every bird fly except the penguin |
| POP.CanFly | POP/POP.playground/Contents.swift:12-89 | with the stored values (FlappyBird true, Penguin false), SwiftBird's default and the swallow override, a bird can fly exactly when it is flyable and not the unknown swallow |
| POP.CanFlyIsDefaultExceptUnknown | POP/POP.playground/Contents.swift:45-48 | the stored and overriding `canFly` rules agree with the default `self is Flyable` for every bird except the unknown swallow |
| POP.SwallowCanFly | POP/POP.playground/Contents.swift:86-88 | a swallow can fly exactly when its kind is not `.unknown`; African and European can fly |
| POP.AirspeedVelocity | POP/POP.playground/Contents.swift:70-79 | defined for every flyable racer except the unknown swallow, whose case is the `fatalError`; a swallow's airspeed is positive |
| POP.Speed | POP/POP.playground/Contents.swift:117-142 | a flyable racer that can fly moves at its airspeed; a grounded swallow has speed 0.0; the airspeed of `.unknown` is never requested |
| POP.SwallowSpeedZeroIffGrounded | POP/POP.playground/Contents.swift:136-140 | a swallow's speed is 0.0 exactly when it cannot fly |
| POP.PenguinWaddles | POP/POP.playground/Contents.swift:130-134 | a penguin cannot fly and has speed 42 |
| POP.MaxFrom | POP/POP.playground/Contents.swift:157 | the running maximum of `max(by:)` is the start or a later element, and no element is faster; when it is not the start, it is the first element of the rest that no element outruns, and it is strictly faster than the start and every element before it (the first of the fastest) |
| POP.MaxBySpeed | POP/POP.playground/Contents.swift:157 | `nil` exactly for an empty sequence, else a member of the sequence whose speed no member exceeds |
| POP.TopSpeedOf | POP/POP.playground/Contents.swift:155-158 | 0.0 for an empty sequence; otherwise the speed of some element, and no element is faster |
| POP.SequenceTopSpeed | POP/POP.playground/Contents.swift:164-167 | the extension `topSpeed()` is 0.0 for an empty sequence and the reference maximum of the speeds otherwise |
| POP.MaxSpeedIsMaximum | POP/POP.playground/Contents.swift:155-158 | the reference right fold of speeds is attained by some element and bounds every element |
| POP.TopSpeedAgree | POP/POP.playground/Contents.swift:164-167 | the extension `topSpeed()` equals `topSpeed(of:)` on every sequence, and both equal the reference maximum (0.0 when empty) |
| POP.ExampleRacers | POP/POP.playground/Contents.swift:145-152 | the playground's seven racers: all birds except the last (the motorcycle), and every bird can fly except the unknown swallow and the penguin |
| POP.TopSpeedExamples | POP/POP.playground/Contents.swift:161-171 | the playground's racers have top speed 5100, and racers 1...3 have top speed 42, by `topSpeed(of:)` and by the extension `topSpeed()` alike |
| POP.TopSpeedEmpty | POP/POP.playground/Contents.swift:157 | with no racers, both forms give 0.0 |
| POP.Description | POP/POP.playground/Contents.swift:95-98 | a bird's description is "I can fly" exactly when it can fly, and "Guess I'll just sit here :[" otherwise |
| POP.Less | POP/POP.playground/Contents.swift:182-184 | `<` on scores is strict (never between equal scores), and of two different scores that are not in `<` the second has the smaller value |
| POP.LessIsStrictTotalOrder | POP/POP.playground/Contents.swift:182-184 | `<` on scores is irreflexive, asymmetric, transitive and total up to equality |
| POP.GreaterOrEqual | POP/POP.playground/Contents.swift:187 | the derived `>=`, defined as `!(a < b)`, holds exactly when `a.value >= b.value` |
| POP.ScoreExample | POP/POP.playground/Contents.swift:187 | score 150 `>=` score 130 holds, and 130 `>=` 150 does not |

## Left out

- Printing (`print` calls) and the `UIKit` / `Foundation` imports: they only produce output.
- `Box`, `Gift`, `ValentinesBox`, `ShoeBox`, `Rose`, `Shoe`, `GlassSlipper` (GenericType/GenericType.playground/Contents.swift:80-120): empty class hierarchies whose only behaviour is printing a wrapping message.
- `Reward.message` (GenericType/GenericType.playground/Contents.swift:123-135): string interpolation of an arbitrary value relies on the library's formatter.
- `add` at `Double`, including `add(x: 1, y: 2.9)`: floating-point addition is not modelled.
- AirspeedVelocity: FlappyBird's `3 * flappyFrequency * flappyAmplitude` and SwiftBird's `version * speedFactor` are floating-point products. Each bird carries its airspeed as a given value instead. The example list uses 5100 and 180, the values those products give.
- `boost` (POP/POP.playground/Contents.swift:190-204): it mutates `speedFactor` by floating-point addition, which is left out with the SwiftBird formula.
- `self is Flyable` is runtime reflection in Swift. Here it is a fixed tag per variant (`IsFlyable`).
- The computed names of SwiftBird (`"Swift \(version)"`, which interpolates a `Double`) and of UnladenSwallow (its three strings). Nothing in the playground reads any `name`. The stored names of FlappyBird, Penguin and Motorcycle are kept as fields. SwiftBird's `version` is kept as a field, but nothing reads it.
- Speeds: Swift's `Double` speeds are exact `real` numbers here. So `max(by:)` and `topSpeed` are not modelled on NaN, infinities or rounding.
- AddString: strings are modelled as sequences of Unicode scalars, that is, Swift's `unicodeScalars` view. Swift's `Character` (grapheme cluster) counting is not modelled, and neither is its canonical-equivalence `==`. So where `x + y` merges clusters across the join, as with `"e"` followed by a combining accent, Swift's `count` and first `Character` differ from the length and prefix stated here.
- Mid: modelled over `Int` only, not an arbitrary `Comparable` type.
- Pairs: a ghost function, since no compiled Dafny function can follow a dictionary's iteration order. It promises no order, as the source does not.
- The Swift `Queue` is a struct, so it has value semantics. It is modelled as a class whose methods change its field in place; copying a queue is not modelled.
- `Motorcycle` is a Swift class with a mutable `speed`. Nothing ever changes that speed, so it is a datatype variant here.
