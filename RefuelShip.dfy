/**
 * The refuel use case: a pilot buys fuel for their ship at a fixed unit
 * price. Every check (pilot exists, pilot can pay, ship exists, tank has
 * room) runs before anything is written; then the ship's fuel level is
 * written, and after it the pilot's reduced credits.
 */
module RefuelShip {
  import opened Wrappers

  /** A stored pilot, keyed by certification document in the pilot store. */
  datatype Pilot = Pilot(shipId: string, credits: int)

  /** A stored ship, keyed by id in the ship store. */
  datatype Ship = Ship(fuelCapacity: int, fuelLevel: int)

  /** Credits charged per unit of fuel. */
  const FuelUnitPrice: int := 7

  /** What one execution reports: one case per error the use case raises, or the new fuel level. */
  datatype Outcome =
    | PilotNotFound
    | InsufficientCredits
    | ShipNotFound
    | CapacityExceeded(maxRefuel: int)
    | Ok(fuelLevel: int)

  /** One call to a repository, in the order the use case issues them. */
  datatype Call =
    | PilotRead(document: string)
    | ShipRead(id: string)
    | ShipWrite(id: string, fuelLevel: int)
    | PilotWrite(document: string, credits: int)

  predicate IsWrite(c: Call)
  {
    c.ShipWrite? || c.PilotWrite?
  }

  /** The effect of one execution: its outcome, both stores afterwards, and the calls it issued. */
  datatype Transition = Transition(
    outcome: Outcome,
    pilots: map<string, Pilot>,
    ships: map<string, Ship>,
    calls: seq<Call>)

  /** The store invariant: no pilot in debt, no ship with a negative or overfull tank. */
  ghost predicate Consistent(pilots: map<string, Pilot>, ships: map<string, Ship>)
  {
    && (forall d :: d in pilots ==> pilots[d].credits >= 0)
    && (forall id :: id in ships ==> 0 <= ships[id].fuelLevel <= ships[id].fuelCapacity)
  }

  /** No write is issued before a read: all checks precede all mutations. */
  ghost predicate ReadsBeforeWrites(calls: seq<Call>)
  {
    forall i, j :: 0 <= i < j < |calls| && IsWrite(calls[i]) ==> IsWrite(calls[j])
  }

  /** The request is accepted: the pilot exists and can pay, the ship exists and has room. */
  ghost predicate Accepted(pilots: map<string, Pilot>, ships: map<string, Ship>, document: string, amountOfFuel: int)
  {
    && document in pilots
    && pilots[document].credits >= amountOfFuel * FuelUnitPrice
    && pilots[document].shipId in ships
    && ships[pilots[document].shipId].fuelLevel + amountOfFuel <= ships[pilots[document].shipId].fuelCapacity
  }

  /** The specification of one execution of the use case against the two stores. */
  function Refuel(pilots: map<string, Pilot>, ships: map<string, Ship>, document: string, amountOfFuel: int): (t: Transition)
    // a rejected request writes nothing and leaves both stores as they were
    ensures !t.outcome.Ok? ==>
              t.pilots == pilots && t.ships == ships && forall i :: 0 <= i < |t.calls| ==> !IsWrite(t.calls[i])
    ensures ReadsBeforeWrites(t.calls)
    // which error is reported, and when
    ensures t.outcome == PilotNotFound <==> document !in pilots
    ensures t.outcome == InsufficientCredits <==>
              document in pilots && pilots[document].credits < amountOfFuel * FuelUnitPrice
    ensures t.outcome == InsufficientCredits ==> t.calls == [PilotRead(document)]
    ensures t.outcome == ShipNotFound <==>
              && document in pilots && pilots[document].credits >= amountOfFuel * FuelUnitPrice
              && pilots[document].shipId !in ships
    ensures t.outcome.CapacityExceeded? ==>
              && document in pilots && pilots[document].shipId in ships
              && t.outcome.maxRefuel == ships[pilots[document].shipId].fuelCapacity - ships[pilots[document].shipId].fuelLevel
              && t.outcome.maxRefuel < amountOfFuel
    ensures t.outcome.Ok? <==> Accepted(pilots, ships, document, amountOfFuel)
    // what an accepted request does
    ensures t.outcome.Ok? ==>
              var id := pilots[document].shipId;
              && t.pilots.Keys == pilots.Keys && t.ships.Keys == ships.Keys
              && t.ships[id] == ships[id].(fuelLevel := ships[id].fuelLevel + amountOfFuel)
              && t.pilots[document] == pilots[document].(credits := pilots[document].credits - amountOfFuel * FuelUnitPrice)
              && (forall d :: d in pilots && d != document ==> t.pilots[d] == pilots[d])
              && (forall s :: s in ships && s != id ==> t.ships[s] == ships[s])
              && t.outcome.fuelLevel == t.ships[id].fuelLevel
              && t.calls == [PilotRead(document), ShipRead(id),
                             ShipWrite(id, t.ships[id].fuelLevel), PilotWrite(document, t.pilots[document].credits)]
    // an accepted request never overfills the tank nor drives the pilot into debt
    ensures t.outcome.Ok? ==>
              var id := pilots[document].shipId;
              && t.ships[id].fuelLevel <= t.ships[id].fuelCapacity
              && t.pilots[document].credits >= 0
              && pilots[document].credits - t.pilots[document].credits
                 == FuelUnitPrice * (t.ships[id].fuelLevel - ships[id].fuelLevel)
    ensures Consistent(pilots, ships) && amountOfFuel >= 0 ==> Consistent(t.pilots, t.ships)
  {
    if document !in pilots then
      Transition(PilotNotFound, pilots, ships, [PilotRead(document)])
    else
      var pilot := pilots[document];
      var fuelPrice := amountOfFuel * FuelUnitPrice;
      if pilot.credits < fuelPrice then
        Transition(InsufficientCredits, pilots, ships, [PilotRead(document)])
      else if pilot.shipId !in ships then
        Transition(ShipNotFound, pilots, ships, [PilotRead(document), ShipRead(pilot.shipId)])
      else
        var ship := ships[pilot.shipId];
        if ship.fuelCapacity < ship.fuelLevel + amountOfFuel then
          Transition(CapacityExceeded(ship.fuelCapacity - ship.fuelLevel), pilots, ships,
                     [PilotRead(document), ShipRead(pilot.shipId)])
        else
          var newShip := ship.(fuelLevel := ship.fuelLevel + amountOfFuel);
          var newPilot := pilot.(credits := pilot.credits - fuelPrice);
          Transition(Ok(newShip.fuelLevel),
                     pilots[document := newPilot], ships[pilot.shipId := newShip],
                     [PilotRead(document), ShipRead(pilot.shipId),
                      ShipWrite(pilot.shipId, newShip.fuelLevel), PilotWrite(document, newPilot.credits)])
  }

  /** Both checks are strict: paying exactly all one's credits for exactly a full tank is accepted. */
  lemma ExactFitSucceeds(pilots: map<string, Pilot>, ships: map<string, Ship>, document: string, amountOfFuel: int)
    requires document in pilots && pilots[document].shipId in ships
    requires pilots[document].credits == amountOfFuel * FuelUnitPrice
    requires ships[pilots[document].shipId].fuelLevel + amountOfFuel == ships[pilots[document].shipId].fuelCapacity
    ensures Refuel(pilots, ships, document, amountOfFuel).outcome == Ok(ships[pilots[document].shipId].fuelCapacity)
    ensures Refuel(pilots, ships, document, amountOfFuel).pilots[document].credits == 0
  {
  }

  /**
   * Nothing checks that the amount is positive: a negative amount is
   * accepted whenever it keeps the tank within capacity, and then it
   * drains the tank and credits the pilot.
   */
  lemma NegativeAmountRefunds(pilots: map<string, Pilot>, ships: map<string, Ship>, document: string, amountOfFuel: int)
    requires amountOfFuel < 0
    requires document in pilots && pilots[document].credits >= 0 && pilots[document].shipId in ships
    requires ships[pilots[document].shipId].fuelLevel <= ships[pilots[document].shipId].fuelCapacity
    ensures var t := Refuel(pilots, ships, document, amountOfFuel);
            && t.outcome.Ok?
            && t.pilots[document].credits > pilots[document].credits
            && t.outcome.fuelLevel < ships[pilots[document].shipId].fuelLevel
  {
  }

  /**
   * The four repositories the use case talks to, as in-memory stores.
   * `calls` records every repository call in order; it exists only to
   * state which calls were made and when.
   */
  class Repositories {
    var pilots: map<string, Pilot>
    var ships: map<string, Ship>
    ghost var calls: seq<Call>

    constructor (pilots: map<string, Pilot>, ships: map<string, Ship>)
      ensures this.pilots == pilots && this.ships == ships && calls == []
    {
      this.pilots := pilots;
      this.ships := ships;
      calls := [];
    }

    /** The pilot with this certification document, if any. */
    method GetByDocument(document: string) returns (pilot: Option<Pilot>)
      modifies this`calls
      ensures pilot.Some? <==> document in pilots
      ensures pilot.Some? ==> pilot.value == pilots[document]
      ensures calls == old(calls) + [PilotRead(document)]
    {
      pilot := if document in pilots then Some(pilots[document]) else None;
      calls := calls + [PilotRead(document)];
    }

    /** The ship with this id, if any. */
    method GetById(id: string) returns (ship: Option<Ship>)
      modifies this`calls
      ensures ship.Some? <==> id in ships
      ensures ship.Some? ==> ship.value == ships[id]
      ensures calls == old(calls) + [ShipRead(id)]
    {
      ship := if id in ships then Some(ships[id]) else None;
      calls := calls + [ShipRead(id)];
    }

    /** Sets the fuel level of a stored ship and returns the ship as persisted. */
    method UpdateShip(id: string, fuelLevel: int) returns (ship: Ship)
      requires id in ships
      modifies this`ships, this`calls
      ensures ships == old(ships)[id := old(ships)[id].(fuelLevel := fuelLevel)]
      ensures ship == ships[id]
      ensures calls == old(calls) + [ShipWrite(id, fuelLevel)]
    {
      ship := ships[id].(fuelLevel := fuelLevel);
      ships := ships[id := ship];
      calls := calls + [ShipWrite(id, fuelLevel)];
    }

    /** Sets the credits of a stored pilot and returns the pilot as persisted. */
    method UpdatePilot(document: string, credits: int) returns (pilot: Pilot)
      requires document in pilots
      modifies this`pilots, this`calls
      ensures pilots == old(pilots)[document := old(pilots)[document].(credits := credits)]
      ensures pilot == pilots[document]
      ensures calls == old(calls) + [PilotWrite(document, credits)]
    {
      pilot := pilots[document].(credits := credits);
      pilots := pilots[document := pilot];
      calls := calls + [PilotWrite(document, credits)];
    }
  }

  /** The use case, wired to its repositories at construction. */
  class RefuelShipUseCase {
    const repositories: Repositories

    constructor (repositories: Repositories)
      ensures this.repositories == repositories
    {
      this.repositories := repositories;
    }

    /**
     * Refuels the ship of the pilot holding `certificationDocument` with
     * `amountOfFuel` units, charging the pilot for it. The new stores, the
     * outcome and the calls issued are those of `Refuel`.
     */
    method Execute(certificationDocument: string, amountOfFuel: int) returns (result: Outcome)
      modifies repositories
      ensures var t := Refuel(old(repositories.pilots), old(repositories.ships), certificationDocument, amountOfFuel);
              && result == t.outcome
              && repositories.pilots == t.pilots
              && repositories.ships == t.ships
              && repositories.calls == old(repositories.calls) + t.calls
    {
      var pilot := repositories.GetByDocument(certificationDocument);
      if pilot.None? {
        return PilotNotFound;
      }
      var shipId, credits := pilot.value.shipId, pilot.value.credits;
      var fuelPrice := amountOfFuel * FuelUnitPrice;

      if credits < fuelPrice {
        return InsufficientCredits;
      }

      var ship := repositories.GetById(shipId);
      if ship.None? {
        return ShipNotFound;
      }
      var fuelCapacity, fuelLevel := ship.value.fuelCapacity, ship.value.fuelLevel;

      if fuelCapacity < fuelLevel + amountOfFuel {
        return CapacityExceeded(fuelCapacity - fuelLevel);
      }

      var updatedShip := repositories.UpdateShip(shipId, ship.value.fuelLevel + amountOfFuel);
      var _ := repositories.UpdatePilot(certificationDocument, credits - fuelPrice);

      return Ok(updatedShip.fuelLevel);
    }
  }
}
