# Refuel use case and validation composite, in Dafny

This project models two independent pieces of the Intergalactic Federation
back end and proves what they promise.

- **RefuelShipUseCase** (`RefuelShip.dfy`). A pilot buys fuel for their ship
  at 7 credits per unit. The use case looks up the pilot by certification
  document and checks that the pilot can pay. It then looks up the pilot's
  ship and checks that the fuel fits in the tank. Only then does it write
  the ship's new fuel level, and after that the pilot's reduced credits.
  The four repositories are one `Repositories` object holding a pilot map
  and a ship map. A ghost log `calls` records every repository call in
  order. `Refuel` is the specification of one execution as a function: the
  outcome, both maps afterwards, and the calls issued. `Execute` is the
  imperative method, proved to do exactly what `Refuel` says. The four
  errors the source throws as one generic application error become one tagged
  `Outcome`: `PilotNotFound`, `InsufficientCredits`, `ShipNotFound`,
  `CapacityExceeded(maxRefuel)`, or `Ok(fuelLevel)`.
- **ValidationComposite** (`Validators.dfy`). A composite runs an ordered list
  of validation rules on one input and returns the error of the first rule
  that reports one. Each rule is a function `T -> Option<E>`, where `None`
  stands for `undefined`. `FirstError` is the recursive "first `Some`"
  reference definition. `Validate` is the loop with early return, proved
  equal to `FirstError`. Its ghost out-parameter `evaluated` counts the
  rules it invoked.

`Wrappers.dfy` holds the `Option` type.

The source performs no positivity check on `amountOfFuel`, and neither does
the model. `NegativeAmountRefunds` shows the consequence: a negative amount
passes both checks whenever the tank stays within capacity, and the pilot is
then credited while the tank is drained. The capacity bound and the
non-negative balance hold for every amount. The lower bound `0 <= fuelLevel`
is preserved only for non-negative amounts.

## Model

| member | source | states |
|---|---|---|
| `RefuelShip.Refuel` | src/data/usecases/RefuelShip/RefuelShip.ts:20-63 | A rejected request writes nothing, and both stores are unchanged. No write ever precedes a read. `PilotNotFound` holds exactly when the document is unknown. `InsufficientCredits` holds exactly when the pilot exists and `credits < amount * 7`; the ship is then never read. `ShipNotFound` holds exactly when the pilot can pay but has no stored ship. `CapacityExceeded` carries `fuelCapacity - fuelLevel`, which is less than the amount requested. `Ok` holds exactly when all four checks pass (non-strict, so exact fits pass). On `Ok`, only the pilot's ship and the pilot change: fuel rises by the amount and credits fall by the price. The reported fuel level is the stored one. The calls are read pilot, read ship, write ship, write pilot. The tank is never over capacity, and the credits are never negative. The credits spent equal 7 times the fuel added. The store invariant is preserved for non-negative amounts. |
| `RefuelShip.ExactFitSucceeds` | src/data/usecases/RefuelShip/RefuelShip.ts:31-49 | Because both comparisons are strict `<`, a pilot paying exactly all their credits for exactly a full tank is accepted: the new fuel level is the capacity, and the credits become 0. |
| `RefuelShip.NegativeAmountRefunds` | src/data/usecases/RefuelShip/RefuelShip.ts:31-59 | With no positivity check, a negative amount is accepted for a solvent pilot whose tank is within capacity. The pilot's credits then grow, and the fuel level drops. |
| `RefuelShip.Repositories.GetByDocument` | src/data/usecases/RefuelShip/RefuelShip.ts:24-29 | Returns the stored pilot when the document is known and nothing otherwise. It logs one pilot read and changes no store. |
| `RefuelShip.Repositories.GetById` | src/data/usecases/RefuelShip/RefuelShip.ts:37-40 | Returns the stored ship when the id is known and nothing otherwise. It logs one ship read and changes no store. |
| `RefuelShip.Repositories.UpdateShip` | src/data/usecases/RefuelShip/RefuelShip.ts:51-55 | Sets only the fuel level of that one ship, and returns the ship as stored. It logs one ship write, and the pilot store is untouched. |
| `RefuelShip.Repositories.UpdatePilot` | src/data/usecases/RefuelShip/RefuelShip.ts:57-60 | Sets only the credits of that one pilot, and returns the pilot as stored. It logs one pilot write, and the ship store is untouched. |
| `RefuelShip.RefuelShipUseCase.constructor` | src/data/usecases/RefuelShip/RefuelShip.ts:13-18 | The use case is wired to the given repositories. |
| `RefuelShip.RefuelShipUseCase.Execute` | src/data/usecases/RefuelShip/RefuelShip.ts:20-63 | The outcome, both new stores, and the calls appended to the log are exactly those of `Refuel` on the stores as they were before the call. |
| `Validators.FirstError` | src/application/helpers/validators/ValidationComposite/ValidationComposite.ts:6-14 | No error exactly when every rule passes, including when the list is empty. Otherwise, the error is the unchanged error of the lowest-index failing rule. |
| `Validators.FirstErrorAppend` | src/application/helpers/validators/ValidationComposite/ValidationComposite.ts:7-13 | Running `a + b` gives the result of `a` when `a` fails, and the result of `b` otherwise. |
| `Validators.ShortCircuit` | src/application/helpers/validators/ValidationComposite/ValidationComposite.ts:10-12 | Once a prefix of the chain has failed, replacing the rules after it by any others leaves the result unchanged. Those rules are never consulted. |
| `Validators.NestedComposite` | src/application/helpers/validators/ValidationComposite/ValidationComposite.ts:3-6 | A composite is itself a rule. A nested composite at the head of a chain behaves as if its rules were spliced in its place. |
| `Validators.ValidationComposite.constructor` | src/application/helpers/validators/ValidationComposite/ValidationComposite.ts:4 | The rule list is fixed at construction, and no member changes it (`const`). |
| `Validators.ValidationComposite.Validate` | src/application/helpers/validators/ValidationComposite/ValidationComposite.ts:6-14 | Returns exactly `FirstError` of its rules on the input, so it is deterministic, and it modifies nothing. With no error, every rule was invoked. With an error, exactly the rules up to and including the lowest-index failing one were invoked, and that rule's error is returned. |

## Left out

- Asynchrony: the awaited repository calls are modelled as sequential method calls.
- Repository failures: a repository call that throws is not modelled. This includes a failure between the ship write and the pilot write, which the source leaves without rollback.
- The error message texts and their string interpolation: the capacity error keeps the structured `maxRefuel` value instead of the formatted message.
- JavaScript `number` semantics: credits, fuel levels and amounts are unbounded integers, with no floating-point rounding.
- Concurrent executions against the same pilot or ship: the source has no guard to model.
- The concrete repositories: they are in-memory maps behind one `Repositories` object. The four collaborators therefore share one store, which is also what makes one ordered call log possible.
- RefuelShip.Repositories.UpdateShip: requires the ship to be stored. The use case only writes a ship it has just read, and the behaviour of the concrete store for an unknown id is not part of this model.
- RefuelShip.Repositories.UpdatePilot: requires the pilot to be stored, for the same reason.
- Pilot and ship fields that the use case never reads or writes (names, other capacities) are not modelled.
- The concrete validation rules: each rule is a pure, total function from the input to an optional error. A rule that throws or has side effects is not modelled. The source's `if (error)` truthiness test is read as "an error was returned", since an `Error` object is always truthy.
- src/domain/models/Contract.ts holds only a type declaration, with no behaviour to model.
