/** The handlers of src/controllers/guestController.ts over an in-memory
    collection: a registry object whose methods change its guest list in
    place. Each state-changing handler is proved to answer, and to leave the
    collection, as the matching RegistrySpec function says; the read-only
    handlers are proved against the listing and lookup contracts. */
module GuestController {
  import opened GuestModel
  import opened RegistrySpec

  /** Inserts `g` into a newest-first sequence at its place. */
  function InsertNewestFirst(r: seq<Guest>, g: Guest, field: SortField): (r': seq<Guest>)
    requires NewestFirst(r, field)
    requires forall x :: x in r ==> Stamp(x, field) != Stamp(g, field)
    ensures NewestFirst(r', field)
    ensures forall x :: x in r' <==> x in r || x == g
  {
    if r == [] || Stamp(g, field) > Stamp(r[0], field) then [g] + r
    else
      var rest := InsertNewestFirst(r[1..], g, field);
      assert forall j :: 0 <= j < |rest| ==> Stamp(r[0], field) > Stamp(rest[j], field) by {
        forall j | 0 <= j < |rest| ensures Stamp(r[0], field) > Stamp(rest[j], field) {
          assert rest[j] in rest;
          if rest[j] != g {
            var m :| 0 <= m < |r[1..]| && r[1..][m] == rest[j];
            assert r[m + 1] == rest[j];
          }
        }
      }
      [r[0]] + rest
  }

  class GuestRegistry {
    var guests: seq<Guest>
    var nextId: GuestId
    var clock: nat

    function Snapshot(): Store
      reads this
    {
      Store(guests, nextId, clock)
    }

    ghost predicate Valid()
      reads this
    {
      Inv(Snapshot())
    }

    /** An empty collection. */
    constructor ()
      ensures Valid() && Snapshot() == Store([], 0, 0)
    {
      guests, nextId, clock := [], 0, 0;
    }

    /** createGuest; `code` is what the generator drew for this request. */
    method CreateGuest(name: Option<string>, maxCompanions: Option<int>, code: string) returns (reply: Result<Guest>)
      requires Valid() && IsReservationCode(code)
      modifies this
      ensures Valid()
      ensures Step(reply, Snapshot()) == Create(old(Snapshot()), name, maxCompanions, code)
    {
      if name.None? || name.value == [] {
        return Err(MissingName);
      }
      var guest := NewGuest(nextId, name.value, OrZero(maxCompanions), code, clock);
      if guest.name == [] {
        // the schema's `required` check, after `trim`
        return Err(InvalidRecord);
      }
      if FindFirst(guests, ByCode(code)).Some? {
        // the unique index on the reservation code
        return Err(DuplicateCode);
      }
      ghost var spec := Create(Snapshot(), name, maxCompanions, code);
      guests := guests + [guest];
      nextId, clock := nextId + 1, clock + 1;
      assert spec.store == Snapshot();
      reply := Ok(guest);
    }

    /** confirmAttendance; `delivered` says whether the QR image was rendered
        and the mail accepted by the transport, both after the save. */
    method ConfirmAttendance(code: Option<string>, email: Option<string>, companions: Option<int>,
                             frontend: Option<string>, delivered: bool) returns (reply: Result<Confirmation>)
      requires Valid()
      modifies this
      ensures Valid()
      ensures Step(reply, Snapshot()) == Confirm(old(Snapshot()), code, email, companions, frontend, delivered)
    {
      ghost var spec := Confirm(Snapshot(), code, email, companions, frontend, delivered);
      if code.None? || code.value == [] || email.None? || email.value == [] {
        return Err(MissingCodeOrEmail);
      }
      var n := OrZero(companions);
      var found := FindFirst(guests, ByCode(code.value));
      if found.None? {
        return Err(CodeNotFound);
      }
      var k := found.value;
      var guest := guests[k];
      if guest.confirmed {
        return Err(AlreadyConfirmed);
      }
      if n < 0 || n > guest.maxCompanions {
        return Err(InvalidCompanions(n, guest.maxCompanions));
      }
      guest := Confirmed(guest, email.value, n, clock);
      guests := guests[k := guest];
      clock := clock + 1;
      var notice := Notice(email.value, FrontendBase(frontend) + "/invitacion/" + guest.reservationCode, n + 1);
      assert spec.store == Snapshot();
      if !delivered {
        return Err(NotificationFailed);
      }
      reply := Ok(Confirmation(guest, notice));
    }

    /** getAllGuests: every guest, most recently created first. */
    method GetAllGuests() returns (r: seq<Guest>)
      requires Valid()
      ensures IsListing(Snapshot(), r, Everyone, CreatedAt)
    {
      r := [];
      for i := 0 to |guests|
        invariant |r| == i
        invariant forall j :: 0 <= j < i ==> r[j] == guests[i - 1 - j]
        invariant NewestFirst(r, CreatedAt)
      {
        assert forall j :: 0 <= j < i ==> InOrder(guests[j], guests[i]);
        r := [guests[i]] + r;
      }
      forall g | g in guests ensures g in r {
        var m :| 0 <= m < |guests| && guests[m] == g;
        assert r[|guests| - 1 - m] == g;
      }
    }

    /** getConfirmedGuests: the confirmed guests, most recently updated first. */
    method GetConfirmedGuests() returns (r: seq<Guest>)
      requires Valid()
      ensures IsListing(Snapshot(), r, ConfirmedOnly, UpdatedAt)
    {
      r := [];
      for i := 0 to |guests|
        invariant NewestFirst(r, UpdatedAt)
        invariant forall g :: g in r <==> g in guests[..i] && g.confirmed
      {
        if guests[i].confirmed {
          forall x | x in r ensures Stamp(x, UpdatedAt) != Stamp(guests[i], UpdatedAt) {
            var j :| 0 <= j < i && guests[j] == x;
            assert InOrder(guests[j], guests[i]);
          }
          r := InsertNewestFirst(r, guests[i], UpdatedAt);
        }
        assert guests[..i + 1] == guests[..i] + [guests[i]];
      }
      assert guests[..|guests|] == guests;
    }

    /** getGuestByCode: the guest holding exactly this code. */
    method GetGuestByCode(code: string) returns (reply: Result<Guest>)
      requires Valid()
      ensures reply.Ok? <==> exists k :: HeldAt(Snapshot(), ByCode(code), k)
      ensures reply.Ok? ==> reply.value in guests && reply.value.reservationCode == code
      ensures reply.Ok? ==> forall g :: g in guests && g.reservationCode == code ==> g == reply.value
      ensures reply.Err? ==> reply.failure == CodeNotFound
    {
      var found := FindFirst(guests, ByCode(code));
      if found.None? {
        return Err(CodeNotFound);
      }
      var k := found.value;
      assert HeldAt(Snapshot(), ByCode(code), k);
      forall g | g in guests && g.reservationCode == code ensures g == guests[k] {
        var j :| 0 <= j < |guests| && guests[j] == g;
        if j != k { CodesUnique(Snapshot(), j, k); }
      }
      reply := Ok(guests[k]);
    }

    /** updateGuest: name and maximum only. */
    method UpdateGuest(id: GuestId, name: Option<string>, maxCompanions: Option<int>) returns (reply: Result<Guest>)
      requires Valid()
      modifies this
      ensures Valid()
      ensures Step(reply, Snapshot()) == Update(old(Snapshot()), id, name, maxCompanions)
    {
      ghost var spec := Update(Snapshot(), id, name, maxCompanions);
      var newName := if name.Some? then Some(Trim(name.value)) else None;
      if newName.Some? && newName.value == [] {
        // update validators run before the lookup
        return Err(InvalidRecord);
      }
      var found := FindFirst(guests, ById(id));
      if found.None? {
        return Err(GuestNotFound);
      }
      var k := found.value;
      var guest := guests[k].(
        name := if newName.Some? then newName.value else guests[k].name,
        maxCompanions := if maxCompanions.Some? then maxCompanions.value else guests[k].maxCompanions,
        updatedAt := clock);
      guests := guests[k := guest];
      clock := clock + 1;
      assert spec.store == Snapshot();
      reply := Ok(guest);
    }

    /** deleteGuest: removes the guest whatever its state and answers its name. */
    method DeleteGuest(id: GuestId) returns (reply: Result<string>)
      requires Valid()
      modifies this
      ensures Valid()
      ensures Step(reply, Snapshot()) == Delete(old(Snapshot()), id)
    {
      var found := FindFirst(guests, ById(id));
      if found.None? {
        return Err(GuestNotFound);
      }
      ghost var spec := Delete(Snapshot(), id);
      var k := found.value;
      var name := guests[k].name;
      guests := guests[..k] + guests[k + 1..];
      assert spec.store == Snapshot();
      reply := Ok(name);
    }
  }
}
