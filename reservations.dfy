/** The hour-slot reservation engine of reservations.py.

    The DynamoDB table `reservation` is a map from its primary key
    (`spaceId_reservation`, `datetime_reservation`) to the remaining
    attributes of the item; the tables `coworking-spaces` and `users` are
    read-only maps keyed by `spaceId` and `userId`. A conditional `put_item`
    is one atomic insert-if-absent step on the map. */
module Reservations {
  import opened Wrappers
  import opened SlotKeys

  /** Primary key of a reservation item. */
  datatype SlotId = SlotId(spaceId: string, datetime: string)

  /** The non-key attributes of a reservation item. */
  datatype Reservation = Reservation(
    userId: string,
    status: string,
    dateReservation: string,
    hourReservation: string,
    createdAt: string)

  type Table = map<SlotId, Reservation>

  /** An item of `coworking-spaces`; each attribute may be missing. */
  datatype Space = Space(availability: Option<bool>, hoster: Option<string>, name: Option<string>)

  /** An item of `users`. */
  datatype User = User(name: Option<string>, email: Option<string>)

  /** One full item as returned by a scan of `reservation`. */
  datatype Item = Item(key: SlotId, record: Reservation)

  /** The display item built by `listar_reservas_cohoster`. */
  datatype HosterItem = HosterItem(
    id: string,
    spaceId: string,
    userId: string,
    hosterId: string,
    startDate: string,
    endDate: string,
    status: string,
    spaceName: string,
    userName: string,
    userEmail: string)

  /** The decoded JSON body of a response. */
  datatype Body =
    | Message(text: string)
    | Reserved(message: string, spaceId: string, date: string, hours: seq<int>)
    | Availability(available: bool, conflicts: seq<int>)
    | Canceled(message: string, spaceId: string, datetime: string)
    | Items(items: set<Item>)
    | Normalized(entries: seq<HosterItem>)

  datatype Response = Response(statusCode: int, body: Body)

  /** The decoded body of a POST: `None` is a key absent from the JSON. */
  datatype AddRequest = AddRequest(
    spaceId: Option<string>,
    userId: Option<string>,
    date: Option<string>,
    hours: Option<seq<int>>,
    status: Option<string>)

  const DefaultStatus: string := "reserved"
  const ReservedMsg: string := "Reserva completa registrada com sucesso."
  const CanceledMsg: string := "Reserva cancelada com sucesso."
  const SpaceUnavailableMsg: string := "Espaço não disponível"
  const UserNotFoundMsg: string := "Usuário não encontrado"
  const MissingParamsMsg: string := "Parâmetros obrigatórios ausentes"
  const NotFoundOrNotOwnedMsg: string := "Reserva não encontrada ou não pertence ao usuário"
  const UserIdRequiredMsg: string := "Parâmetro userId é obrigatório"
  const HosterIdRequiredMsg: string := "Parâmetro hosterId (ou coHosterId) é obrigatório"
  const Dash: string := "—"

  /** The 400 message of a KeyError: `str(KeyError(f))` quotes the key. */
  function MissingFieldMsg(field: string): string
  {
    "Campo obrigatório ausente: '" + field + "'"
  }

  function SlotTakenMsg(hour: int): string
  {
    "Horário " + IntText(hour) + "h já reservado"
  }

  function OrDash(s: Option<string>): string
  {
    if s.Some? then s.value else Dash
  }

  /** The first required key missing from a POST body, in the order the
      handler reads them. */
  function FirstMissing(req: AddRequest): Option<string>
  {
    if req.spaceId.None? then Some("spaceId_reservation")
    else if req.userId.None? then Some("userId")
    else if req.date.None? then Some("date_reservation")
    else if req.hours.None? then Some("hours_reservation")
    else None
  }

  /** `user_exists`: the point lookup finds an item. */
  predicate UserExists(users: map<string, User>, userId: string)
  {
    userId in users
  }

  /** `space_exists_and_available`: the item exists and its `availability`
      is true; a missing attribute counts as false. */
  predicate SpaceBookable(spaces: map<string, Space>, spaceId: string)
  {
    spaceId in spaces && spaces[spaceId].availability == Some(true)
  }

  /** The key of the slot for `hour` of `date` at a space. */
  function SlotOf(spaceId: string, date: string, hour: int): SlotId
  {
    SlotId(spaceId, SlotKey(date, hour))
  }

  /** What every hour of one `add_reservation` call shares. */
  datatype Booking = Booking(spaceId: string, userId: string, date: string, status: string, createdAt: string)

  /** The item written for one hour: `hour_reservation` is `str(hour)`. */
  function NewRecord(b: Booking, hour: int): Reservation
  {
    Reservation(b.userId, b.status, b.date, IntText(hour), b.createdAt)
  }

  /** The effect of the hour loop: the table afterwards, how many hours
      were claimed, and the hour whose conditional put failed, if any. */
  datatype Claim = Claim(table: Table, claimed: nat, conflict: Option<int>)

  /** Walks `hours` in order, inserting each slot that is absent and
      stopping at the first one that is present, with no rollback. */
  function Claims(t: Table, b: Booking, hours: seq<int>): (c: Claim)
    ensures c.claimed <= |hours|
    ensures c.conflict.Some? <==> c.claimed < |hours|
    ensures c.conflict.Some? ==> c.conflict.value == hours[c.claimed]
    decreases |hours|
  {
    if hours == [] then Claim(t, 0, None)
    else
      var key := SlotOf(b.spaceId, b.date, hours[0]);
      if key in t then Claim(t, 0, Some(hours[0]))
      else
        var rest := Claims(t[key := NewRecord(b, hours[0])], b, hours[1..]);
        rest.(claimed := rest.claimed + 1)
  }

  /** One step of the loop, from hour `i` on. */
  lemma ClaimsFrom(t: Table, b: Booking, hours: seq<int>, i: nat)
    requires i < |hours|
    ensures var key := SlotOf(b.spaceId, b.date, hours[i]);
      Claims(t, b, hours[i..])
      == if key in t then Claim(t, 0, Some(hours[i]))
         else var c := Claims(t[key := NewRecord(b, hours[i])], b, hours[i + 1..]);
              c.(claimed := c.claimed + 1)
  {
    assert hours[i..][0] == hours[i];
    assert hours[i..][1..] == hours[i + 1..];
  }

  /** A claim of the suffix from hour `n` on, seen from the whole request. */
  function Shift(c: Claim, n: nat): Claim
  {
    c.(claimed := c.claimed + n)
  }

  /** The step of the loop as the method takes it: at hour `i`, with the
      claim of the whole request known to continue from table `t`, a present
      slot ends the claim there and an absent one is inserted. */
  lemma ClaimsStep(t0: Table, t: Table, b: Booking, hours: seq<int>, i: nat)
    requires i < |hours|
    requires Claims(t0, b, hours) == Shift(Claims(t, b, hours[i..]), i)
    ensures var key := SlotOf(b.spaceId, b.date, hours[i]);
      if key in t then Claims(t0, b, hours) == Claim(t, i, Some(hours[i]))
      else Claims(t0, b, hours) == Shift(Claims(t[key := NewRecord(b, hours[i])], b, hours[i + 1..]), i + 1)
  {
    ClaimsFrom(t, b, hours, i);
  }

  /** Hour `i` of a request cannot be claimed: its slot is already in the
      table, or the same hour came earlier in the request. */
  ghost predicate Taken(t: Table, b: Booking, hours: seq<int>, i: nat)
    requires i < |hours|
  {
    SlotOf(b.spaceId, b.date, hours[i]) in t || exists j :: 0 <= j < i && hours[j] == hours[i]
  }

  /** The hours of `hours`, in order and with repetitions, for which
      `held` holds. */
  function Keep(hours: seq<int>, held: int -> bool): seq<int>
  {
    if hours == [] then []
    else
      var last := hours[|hours| - 1];
      Keep(hours[..|hours| - 1], held) + (if held(last) then [last] else [])
  }

  /** Whether the slot of an hour is in the table. */
  function HeldIn(t: Table, spaceId: string, date: string): int -> bool
  {
    h => SlotOf(spaceId, date, h) in t
  }

  /** The hours of `hours`, in order and with repetitions, whose slot is in
      the table: the `conflicts` list of `check_availability`. */
  function Occupied(t: Table, spaceId: string, date: string, hours: seq<int>): seq<int>
  {
    Keep(hours, HeldIn(t, spaceId, date))
  }

  /** Every item of the table whose `userId` is `userId`. */
  function ItemsOfUser(t: Table, userId: string): (r: set<Item>)
    ensures forall it :: it in r <==> it.key in t && t[it.key] == it.record && it.record.userId == userId
  {
    set k | k in t && t[k].userId == userId :: Item(k, t[k])
  }

  /** `hosterId or coHosterId`, each taken only when truthy. */
  function HosterParam(hosterId: Option<string>, coHosterId: Option<string>): (r: Option<string>)
    ensures r.Some? <==> Present(hosterId) || Present(coHosterId)
    ensures r.Some? ==> r.value != ""
    ensures Present(hosterId) ==> r == hosterId
    ensures !Present(hosterId) && Present(coHosterId) ==> r == coHosterId
  {
    if Present(hosterId) then hosterId
    else if Present(coHosterId) then coHosterId
    else None
  }

  /** The optional `status` filter, applied only when truthy. */
  predicate StatusMatches(r: Reservation, statusFilter: Option<string>)
  {
    !Present(statusFilter) || r.status == statusFilter.value
  }

  /** A reservation shown to the hoster: its space is one of the hoster's
      and it passes the status filter. */
  predicate Selected(t: Table, spaces: map<string, Space>, hosterId: string, statusFilter: Option<string>, k: SlotId)
  {
    k in t && k.spaceId in spaces && spaces[k.spaceId].hoster == Some(hosterId)
    && StatusMatches(t[k], statusFilter)
  }

  /** The display item for one reservation; a missing user or name shows `—`. */
  function Normalize(k: SlotId, r: Reservation, space: Space, users: map<string, User>, hosterId: string): HosterItem
  {
    var user := if r.userId in users then users[r.userId] else User(None, None);
    HosterItem(
      k.spaceId + "|" + k.datetime, k.spaceId, r.userId, hosterId,
      k.datetime, k.datetime, r.status,
      OrDash(space.name), OrDash(user.name), OrDash(user.email))
  }

  /** The key a display item was built from. */
  function SourceKey(x: HosterItem): SlotId
  {
    SlotId(x.spaceId, x.startDate)
  }

  /** Every stored item sits at the key its own date and hour name. */
  ghost predicate KeysMatchRecords(t: Table)
  {
    forall k :: k in t ==>
      ParseHour(t[k].hourReservation).Some?
      && k.datetime == SlotKey(t[k].dateReservation, ParseHour(t[k].hourReservation).value)
  }

  // ---------------------------------------------------------------------
  // Properties of the hour loop of add_reservation

  /** The loop claims exactly the hours before the first taken one, and
      stops there. */
  lemma {:induction false} ClaimsStopsAtFirstTaken(t: Table, b: Booking, hours: seq<int>)
    ensures forall j :: 0 <= j < Claims(t, b, hours).claimed ==> !Taken(t, b, hours, j)
    ensures Claims(t, b, hours).claimed < |hours| ==> Taken(t, b, hours, Claims(t, b, hours).claimed)
    decreases |hours|
  {
    if hours != [] {
      var key := SlotOf(b.spaceId, b.date, hours[0]);
      if key !in t {
        var t1 := t[key := NewRecord(b, hours[0])];
        var rest := hours[1..];
        ClaimsStopsAtFirstTaken(t1, b, rest);
        var c := Claims(t, b, hours);
        var c1 := Claims(t1, b, rest);
        assert c.claimed == c1.claimed + 1;
        forall j | 0 <= j < c.claimed ensures !Taken(t, b, hours, j) {
          if j > 0 {
            assert !Taken(t1, b, rest, j - 1);
            assert hours[j] == rest[j - 1];
            forall i | 0 <= i < j ensures hours[i] != hours[j] {
              if i > 0 { assert hours[i] == rest[i - 1]; }
            }
          }
        }
        if c.claimed < |hours| {
          var m := c1.claimed;
          assert Taken(t1, b, rest, m);
          assert hours[m + 1] == rest[m];
          var km := SlotOf(b.spaceId, b.date, rest[m]);
          if km in t {
          } else if km == key {
            SlotKeyInjective(b.date, rest[m], b.date, hours[0]);
          } else {
            var i :| 0 <= i < m && rest[i] == rest[m];
            assert hours[i + 1] == rest[i];
          }
        }
      }
    }
  }

  /** The conditional put never overwrites: every item already in the
      table is still there, unchanged, after the loop. */
  lemma {:induction false} ClaimsKeepsExisting(t: Table, b: Booking, hours: seq<int>)
    ensures forall k :: k in t ==> k in Claims(t, b, hours).table && Claims(t, b, hours).table[k] == t[k]
    decreases |hours|
  {
    if hours != [] {
      var key := SlotOf(b.spaceId, b.date, hours[0]);
      if key !in t {
        ClaimsKeepsExisting(t[key := NewRecord(b, hours[0])], b, hours[1..]);
      }
    }
  }

  /** The table after the loop holds a fresh record for every claimed hour
      and nothing else new: the hours at and after the conflict are never
      written, and the earlier ones are not rolled back. */
  lemma {:induction false} ClaimsWrites(t: Table, b: Booking, hours: seq<int>)
    ensures forall j :: 0 <= j < Claims(t, b, hours).claimed ==>
      SlotOf(b.spaceId, b.date, hours[j]) in Claims(t, b, hours).table
      && Claims(t, b, hours).table[SlotOf(b.spaceId, b.date, hours[j])] == NewRecord(b, hours[j])
    ensures forall k :: k in Claims(t, b, hours).table ==>
      k in t || exists j :: 0 <= j < Claims(t, b, hours).claimed && k == SlotOf(b.spaceId, b.date, hours[j])
    decreases |hours|
  {
    if hours != [] {
      var key := SlotOf(b.spaceId, b.date, hours[0]);
      if key !in t {
        var t1 := t[key := NewRecord(b, hours[0])];
        var rest := hours[1..];
        ClaimsWrites(t1, b, rest);
        ClaimsKeepsExisting(t1, b, rest);
        var c := Claims(t, b, hours);
        var c1 := Claims(t1, b, rest);
        forall j | 0 <= j < c.claimed
          ensures SlotOf(b.spaceId, b.date, hours[j]) in c.table
          ensures c.table[SlotOf(b.spaceId, b.date, hours[j])] == NewRecord(b, hours[j])
        {
          if j > 0 { assert hours[j] == rest[j - 1]; }
        }
        forall k | k in c.table
          ensures k in t || exists j :: 0 <= j < c.claimed && k == SlotOf(b.spaceId, b.date, hours[j])
        {
          if k !in t {
            if k == key {
              assert k == SlotOf(b.spaceId, b.date, hours[0]);
            } else {
              var i :| 0 <= i < c1.claimed && k == SlotOf(b.spaceId, b.date, rest[i]);
              assert rest[i] == hours[i + 1];
            }
          }
        }
      }
    }
  }

  /** An hour repeated in one request fails at its second occurrence at
      the latest. */
  lemma ClaimsStopsAtRepeatedHour(t: Table, b: Booking, hours: seq<int>, i: nat, j: nat)
    requires i < j < |hours| && hours[i] == hours[j]
    ensures Claims(t, b, hours).claimed <= j
    ensures Claims(t, b, hours).conflict.Some?
  {
    ClaimsStopsAtFirstTaken(t, b, hours);
    assert Taken(t, b, hours, j);
  }

  /** Every item the loop writes sits at the key its own date and hour name. */
  lemma {:induction false} ClaimsKeepsKeysMatchingRecords(t: Table, b: Booking, hours: seq<int>)
    requires KeysMatchRecords(t)
    ensures KeysMatchRecords(Claims(t, b, hours).table)
    decreases |hours|
  {
    if hours != [] {
      var key := SlotOf(b.spaceId, b.date, hours[0]);
      if key !in t {
        IntTextRoundTrip(hours[0]);
        ClaimsKeepsKeysMatchingRecords(t[key := NewRecord(b, hours[0])], b, hours[1..]);
      }
    }
  }

  // ---------------------------------------------------------------------
  // Properties relating the operations to each other

  lemma KeepExtend(hours: seq<int>, held: int -> bool, i: nat)
    requires i < |hours|
    ensures Keep(hours[..i + 1], held) == Keep(hours[..i], held) + (if held(hours[i]) then [hours[i]] else [])
  {
    assert hours[..i + 1][..i] == hours[..i];
  }

  lemma CountAppend(s: seq<int>, x: int, h: int)
    ensures multiset(s + [x])[h] == multiset(s)[h] + if h == x then 1 else 0
  {
    assert multiset(s + [x]) == multiset(s) + multiset{x};
  }

  /** A kept hour appears as often as in the input, another one never. */
  lemma {:induction false} KeepCounts(hours: seq<int>, held: int -> bool, h: int)
    ensures multiset(Keep(hours, held))[h] == if held(h) then multiset(hours)[h] else 0
  {
    if hours != [] {
      var init, last := hours[..|hours| - 1], hours[|hours| - 1];
      KeepCounts(init, held, h);
      assert hours == init + [last];
      CountAppend(init, last, h);
      if held(last) {
        CountAppend(Keep(init, held), last, h);
      }
    }
  }

  lemma {:induction false} KeepAll(hours: seq<int>, held: int -> bool)
    requires forall j :: 0 <= j < |hours| ==> held(hours[j])
    ensures Keep(hours, held) == hours
  {
    if hours != [] {
      var init := hours[..|hours| - 1];
      assert forall j :: 0 <= j < |init| ==> init[j] == hours[j];
      KeepAll(init, held);
      assert hours == init + [hours[|hours| - 1]];
    }
  }

  /** One step of the availability loop. */
  lemma OccupiedExtend(t: Table, spaceId: string, date: string, hours: seq<int>, i: nat)
    requires i < |hours|
    ensures Occupied(t, spaceId, date, hours[..i + 1])
      == Occupied(t, spaceId, date, hours[..i])
         + (if SlotOf(spaceId, date, hours[i]) in t then [hours[i]] else [])
  {
    KeepExtend(hours, HeldIn(t, spaceId, date), i);
  }

  /** `conflicts` keeps the repetitions of the request: an occupied hour
      appears as often as it was asked for, a free one never. */
  lemma OccupiedCounts(t: Table, spaceId: string, date: string, hours: seq<int>, h: int)
    ensures multiset(Occupied(t, spaceId, date, hours))[h]
      == if SlotOf(spaceId, date, h) in t then multiset(hours)[h] else 0
  {
    KeepCounts(hours, HeldIn(t, spaceId, date), h);
  }

  /** An hour is reported if and only if it was requested and its slot is
      present. */
  lemma OccupiedMembers(t: Table, spaceId: string, date: string, hours: seq<int>, h: int)
    ensures h in Occupied(t, spaceId, date, hours) <==> h in hours && SlotOf(spaceId, date, h) in t
  {
    OccupiedCounts(t, spaceId, date, hours, h);
  }

  /** No hour is reported exactly when no requested slot is present. */
  lemma OccupiedEmpty(t: Table, spaceId: string, date: string, hours: seq<int>)
    ensures Occupied(t, spaceId, date, hours) == []
      <==> forall h :: h in hours ==> SlotOf(spaceId, date, h) !in t
  {
    var r := Occupied(t, spaceId, date, hours);
    if r != [] {
      OccupiedMembers(t, spaceId, date, hours, r[0]);
    } else {
      forall h | h in hours ensures SlotOf(spaceId, date, h) !in t {
        OccupiedMembers(t, spaceId, date, hours, h);
      }
    }
  }

  /** When every requested slot is present, every hour is reported, in
      order. */
  lemma OccupiedWhenAllPresent(t: Table, spaceId: string, date: string, hours: seq<int>)
    requires forall j :: 0 <= j < |hours| ==> SlotOf(spaceId, date, hours[j]) in t
    ensures Occupied(t, spaceId, date, hours) == hours
  {
    KeepAll(hours, HeldIn(t, spaceId, date));
  }

  /** Writes and reads build the key with the same rule: right after a
      complete reservation, checking the same hours reports every one of
      them, in order, as a conflict. */
  lemma ClaimedHoursAreOccupied(t: Table, b: Booking, hours: seq<int>)
    requires Claims(t, b, hours).conflict.None?
    ensures Occupied(Claims(t, b, hours).table, b.spaceId, b.date, hours) == hours
  {
    ClaimsWrites(t, b, hours);
    OccupiedWhenAllPresent(Claims(t, b, hours).table, b.spaceId, b.date, hours);
  }

  /** The hours claimed for a user appear among that user's reservations. */
  lemma ClaimedHoursListedForUser(t: Table, b: Booking, hours: seq<int>, j: nat)
    requires j < Claims(t, b, hours).claimed
    ensures Item(SlotOf(b.spaceId, b.date, hours[j]), NewRecord(b, hours[j]))
      in ItemsOfUser(Claims(t, b, hours).table, b.userId)
  {
    ClaimsWrites(t, b, hours);
  }

  /** Deleting the slot of one hour frees that hour and no other: every
      other hour keeps its number of conflicts. */
  lemma CancelFreesOnlyThatHour(t: Table, spaceId: string, date: string, hour: int, hours: seq<int>, h: int)
    ensures multiset(Occupied(t - {SlotOf(spaceId, date, hour)}, spaceId, date, hours))[h]
      == if h == hour then 0 else multiset(Occupied(t, spaceId, date, hours))[h]
  {
    OccupiedCounts(t - {SlotOf(spaceId, date, hour)}, spaceId, date, hours, h);
    OccupiedCounts(t, spaceId, date, hours, h);
    if h != hour && SlotOf(spaceId, date, h) == SlotOf(spaceId, date, hour) {
      SlotKeyInjective(date, h, date, hour);
    }
  }

  // ---------------------------------------------------------------------
  // The handlers, over the three tables

  class Store {
    /** The `reservation` table. */
    var reservations: Table
    /** The `coworking-spaces` table, only read. */
    const spaces: map<string, Space>
    /** The `users` table, only read. */
    const users: map<string, User>

    constructor (reservations: Table, spaces: map<string, Space>, users: map<string, User>)
      ensures this.reservations == reservations && this.spaces == spaces && this.users == users
    {
      this.reservations := reservations;
      this.spaces := spaces;
      this.users := users;
    }

    /** `add_reservation`. `createdAt` stands for the clock reading. */
    method AddReservation(req: AddRequest, createdAt: string) returns (resp: Response)
      modifies this
      ensures FirstMissing(req).Some? ==>
        resp == Response(400, Message(MissingFieldMsg(FirstMissing(req).value)))
        && reservations == old(reservations)
      ensures FirstMissing(req).None? && !SpaceBookable(spaces, req.spaceId.value) ==>
        resp == Response(400, Message(SpaceUnavailableMsg)) && reservations == old(reservations)
      ensures (FirstMissing(req).None? && SpaceBookable(spaces, req.spaceId.value)
               && !UserExists(users, req.userId.value)) ==>
        resp == Response(400, Message(UserNotFoundMsg)) && reservations == old(reservations)
      ensures (FirstMissing(req).None? && SpaceBookable(spaces, req.spaceId.value)
               && UserExists(users, req.userId.value)) ==>
        var b := Booking(req.spaceId.value, req.userId.value, req.date.value,
                         if req.status.Some? then req.status.value else DefaultStatus, createdAt);
        var c := Claims(old(reservations), b, req.hours.value);
        reservations == c.table
        && resp == if c.conflict.Some? then Response(400, Message(SlotTakenMsg(c.conflict.value)))
                   else Response(200, Reserved(ReservedMsg, b.spaceId, b.date, req.hours.value))
    {
      var missing := FirstMissing(req);
      if missing.Some? {
        return Response(400, Message(MissingFieldMsg(missing.value)));
      }
      var status := if req.status.Some? then req.status.value else DefaultStatus;
      var b := Booking(req.spaceId.value, req.userId.value, req.date.value, status, createdAt);
      if !SpaceBookable(spaces, b.spaceId) {
        return Response(400, Message(SpaceUnavailableMsg));
      }
      if !UserExists(users, b.userId) {
        return Response(400, Message(UserNotFoundMsg));
      }
      var hours := req.hours.value;
      var i := 0;
      assert hours[i..] == hours;
      while i < |hours|
        invariant 0 <= i <= |hours|
        invariant Claims(old(reservations), b, hours) == Shift(Claims(reservations, b, hours[i..]), i)
      {
        var key := SlotOf(b.spaceId, b.date, hours[i]);
        ClaimsStep(old(reservations), reservations, b, hours, i);
        if key in reservations {
          return Response(400, Message(SlotTakenMsg(hours[i])));
        }
        var next := reservations[key := NewRecord(b, hours[i])];
        assert Claims(old(reservations), b, hours) == Shift(Claims(next, b, hours[i + 1..]), i + 1);
        reservations := next;
        i := i + 1;
      }
      return Response(200, Reserved(ReservedMsg, b.spaceId, b.date, hours));
    }

    /** `check_availability`: `hours` is `None` when the parameter is
        absent or is not valid JSON. */
    method CheckAvailability(spaceId: Option<string>, date: Option<string>, hours: Option<seq<int>>)
      returns (resp: Response)
      ensures !Present(spaceId) || !Present(date) || hours.None? || hours.value == [] ==>
        resp == Response(400, Message(MissingParamsMsg))
      ensures Present(spaceId) && Present(date) && hours.Some? && hours.value != [] ==>
        resp.statusCode == 200 && resp.body.Availability?
        && resp.body.conflicts == Occupied(reservations, spaceId.value, date.value, hours.value)
        && (resp.body.available <==>
              forall h :: h in hours.value ==> SlotOf(spaceId.value, date.value, h) !in reservations)
    {
      if !Present(spaceId) || !Present(date) || hours.None? || hours.value == [] {
        return Response(400, Message(MissingParamsMsg));
      }
      var t, sp, d, hs := reservations, spaceId.value, date.value, hours.value;
      var conflicts: seq<int> := [];
      var i := 0;
      while i < |hs|
        invariant 0 <= i <= |hs|
        invariant conflicts == Occupied(t, sp, d, hs[..i])
      {
        OccupiedExtend(t, sp, d, hs, i);
        if SlotOf(sp, d, hs[i]) in t {
          conflicts := conflicts + [hs[i]];
        }
        i := i + 1;
      }
      assert hs[..i] == hs;
      OccupiedEmpty(t, sp, d, hs);
      return Response(200, Availability(|conflicts| == 0, conflicts));
    }

    /** `cancel_reservation`: an absent item and another user's item give
        the same answer. */
    method CancelReservation(spaceId: Option<string>, datetime: Option<string>, userId: Option<string>)
      returns (resp: Response)
      modifies this
      ensures !Present(spaceId) || !Present(datetime) || !Present(userId) ==>
        resp == Response(400, Message(MissingParamsMsg)) && reservations == old(reservations)
      ensures Present(spaceId) && Present(datetime) && Present(userId) ==>
        var key := SlotId(spaceId.value, datetime.value);
        if key in old(reservations) && old(reservations)[key].userId == userId.value then
          resp == Response(200, Canceled(CanceledMsg, spaceId.value, datetime.value))
          && reservations == old(reservations) - {key}
        else
          resp == Response(400, Message(NotFoundOrNotOwnedMsg)) && reservations == old(reservations)
    {
      if !Present(spaceId) || !Present(datetime) || !Present(userId) {
        return Response(400, Message(MissingParamsMsg));
      }
      var key := SlotId(spaceId.value, datetime.value);
      if key !in reservations || reservations[key].userId != userId.value {
        return Response(400, Message(NotFoundOrNotOwnedMsg));
      }
      reservations := reservations - {key};
      return Response(200, Canceled(CanceledMsg, spaceId.value, datetime.value));
    }

    /** `listar_reservas_usuario`: a scan filtered on `userId`. */
    function ListUserReservations(userId: Option<string>): (resp: Response)
      reads this
      ensures !Present(userId) ==> resp == Response(400, Message(UserIdRequiredMsg))
      ensures Present(userId) ==> resp == Response(200, Items(ItemsOfUser(reservations, userId.value)))
    {
      if !Present(userId) then Response(400, Message(UserIdRequiredMsg))
      else Response(200, Items(ItemsOfUser(reservations, userId.value)))
    }

    /** `listar_reservas_cohoster`: for each space of the hoster, each of
        its reservations passing the status filter, as a display item. */
    method ListHosterReservations(hosterId: Option<string>, coHosterId: Option<string>, statusFilter: Option<string>)
      returns (resp: Response)
      ensures HosterParam(hosterId, coHosterId).None? ==> resp == Response(400, Message(HosterIdRequiredMsg))
      ensures HosterParam(hosterId, coHosterId).Some? ==>
        var h := HosterParam(hosterId, coHosterId).value;
        resp.statusCode == 200 && resp.body.Normalized?
        && (forall x :: x in resp.body.entries ==>
              Selected(reservations, spaces, h, statusFilter, SourceKey(x))
              && x == Normalize(SourceKey(x), reservations[SourceKey(x)], spaces[x.spaceId], users, h))
        && (forall k :: Selected(reservations, spaces, h, statusFilter, k) ==>
              Normalize(k, reservations[k], spaces[k.spaceId], users, h) in resp.body.entries)
        && (forall i, j :: 0 <= i < j < |resp.body.entries| ==> resp.body.entries[i] != resp.body.entries[j])
    {
      var param := HosterParam(hosterId, coHosterId);
      if param.None? {
        return Response(400, Message(HosterIdRequiredMsg));
      }
      var h := param.value;
      var hosted := set s | s in spaces && spaces[s].hoster == Some(h);
      var todo := hosted;
      var normalized: seq<HosterItem> := [];
      while todo != {}
        invariant todo <= hosted
        invariant forall x :: x in normalized ==>
          x.spaceId !in todo && Selected(reservations, spaces, h, statusFilter, SourceKey(x))
          && x == Normalize(SourceKey(x), reservations[SourceKey(x)], spaces[x.spaceId], users, h)
        invariant forall k :: Selected(reservations, spaces, h, statusFilter, k) && k.spaceId !in todo ==>
          Normalize(k, reservations[k], spaces[k.spaceId], users, h) in normalized
        invariant forall i, j :: 0 <= i < j < |normalized| ==> normalized[i] != normalized[j]
        decreases todo
      {
        var sid :| sid in todo;
        var space := spaces[sid];
        var keys := set k | k in reservations && k.spaceId == sid && StatusMatches(reservations[k], statusFilter);
        var rest := keys;
        while rest != {}
          invariant rest <= keys
          invariant forall x :: x in normalized ==>
            (x.spaceId !in todo || (x.spaceId == sid && SourceKey(x) in keys - rest))
            && Selected(reservations, spaces, h, statusFilter, SourceKey(x))
            && x == Normalize(SourceKey(x), reservations[SourceKey(x)], spaces[x.spaceId], users, h)
          invariant forall k :: Selected(reservations, spaces, h, statusFilter, k) && k.spaceId !in todo ==>
            Normalize(k, reservations[k], spaces[k.spaceId], users, h) in normalized
          invariant forall k :: k in keys - rest ==> Normalize(k, reservations[k], space, users, h) in normalized
          invariant forall i, j :: 0 <= i < j < |normalized| ==> normalized[i] != normalized[j]
          decreases rest
        {
          var k :| k in rest;
          var item := Normalize(k, reservations[k], space, users, h);
          assert SourceKey(item) == k;
          normalized := normalized + [item];
          rest := rest - {k};
        }
        todo := todo - {sid};
      }
      return Response(200, Normalized(normalized));
    }
  }
}
