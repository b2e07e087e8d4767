/** `lambda_handler` of lambda_function.py: picks the handler from the HTTP
    method and the end of `rawPath` (API Gateway HTTP API, payload 2.0). */
module Router {
  import opened Wrappers

  /** The five handlers of reservations.py. */
  datatype Handler =
    | AddReservation
    | ListHosterReservations
    | CheckAvailability
    | CancelReservation
    | ListUserReservations

  /** A handler to call, or a 400 answered by the router itself. */
  datatype Dispatch =
    | Handle(handler: Handler)
    | MissingMethodOrPath
    | Unsupported(httpMethod: string, rawPath: string)

  const ReservationsPath: string := "/reservations"
  const AvailabilityPath: string := "/reservations/availability"
  const UserPath: string := "/reservations/user"
  const CohosterPath: string := "/reservations/cohoster"

  /** Python's `str.endswith`. */
  predicate EndsWith(s: string, suffix: string)
  {
    |suffix| <= |s| && s[|s| - |suffix|..] == suffix
  }

  /** The if/elif chain of the handler, in its order. */
  function Route(httpMethod: Option<string>, rawPath: Option<string>): (d: Dispatch)
    ensures !Present(httpMethod) || !Present(rawPath) <==> d == MissingMethodOrPath
    ensures d.Unsupported? ==> d == Unsupported(httpMethod.value, rawPath.value)
  {
    if !Present(httpMethod) || !Present(rawPath) then MissingMethodOrPath
    else
      var m, p := httpMethod.value, rawPath.value;
      if m == "POST" && EndsWith(p, ReservationsPath) then Handle(AddReservation)
      else if m == "GET" && EndsWith(p, ReservationsPath) then Handle(ListHosterReservations)
      else if m == "GET" && EndsWith(p, AvailabilityPath) then Handle(CheckAvailability)
      else if m == "DELETE" && EndsWith(p, ReservationsPath) then Handle(CancelReservation)
      else if m == "GET" && EndsWith(p, UserPath) then Handle(ListUserReservations)
      else if m == "GET" && EndsWith(p, CohosterPath) then Handle(ListHosterReservations)
      else Unsupported(m, p)
  }

  /** The body message of the router's own 400 answers. */
  function ErrorMessage(d: Dispatch): string
    requires !d.Handle?
  {
    match d
    case MissingMethodOrPath => "Método ou caminho ausente."
    case Unsupported(m, p) => "Rota não suportada: " + m + " " + p
  }

  /** The routing table, one entry per handler, with no order among the
      entries. */
  predicate Accepts(r: Handler, m: string, p: string)
  {
    match r
    case AddReservation => m == "POST" && EndsWith(p, ReservationsPath)
    case ListHosterReservations => m == "GET" && (EndsWith(p, ReservationsPath) || EndsWith(p, CohosterPath))
    case CheckAvailability => m == "GET" && EndsWith(p, AvailabilityPath)
    case CancelReservation => m == "DELETE" && EndsWith(p, ReservationsPath)
    case ListUserReservations => m == "GET" && EndsWith(p, UserPath)
  }

  /** Of two suffixes of one string, the shorter is a suffix of the longer. */
  lemma SuffixOfSuffix(p: string, a: string, b: string)
    requires EndsWith(p, a) && EndsWith(p, b) && |a| <= |b|
    ensures EndsWith(b, a)
  {
    forall j | 0 <= j < |a| ensures b[|b| - |a|..][j] == a[j] {
      assert b[|b| - |a| + j] == p[|p| - |b|..][|b| - |a| + j];
      assert a[j] == p[|p| - |a|..][j];
    }
  }

  lemma NotBothSuffixes(p: string, a: string, b: string)
    requires |a| <= |b| && !EndsWith(b, a)
    ensures !EndsWith(p, a) || !EndsWith(p, b)
  {
    if EndsWith(p, a) && EndsWith(p, b) {
      SuffixOfSuffix(p, a, b);
    }
  }

  /** No path ends with two of the four suffixes the chain looks for. */
  lemma SuffixesExclusive(p: string)
    ensures EndsWith(p, ReservationsPath) ==>
      !EndsWith(p, AvailabilityPath) && !EndsWith(p, UserPath) && !EndsWith(p, CohosterPath)
    ensures EndsWith(p, AvailabilityPath) ==> !EndsWith(p, UserPath) && !EndsWith(p, CohosterPath)
    ensures EndsWith(p, UserPath) ==> !EndsWith(p, CohosterPath)
  {
    // The last characters differ: 's', 'y' and 'r'; and "user" against
    // "cohoster" differs five characters from the end.
    assert ReservationsPath[12] == 's' && AvailabilityPath[25] == 'y';
    assert UserPath[17] == 'r' && CohosterPath[21] == 'r';
    assert UserPath[13] == '/' && CohosterPath[17] == 'o';
    assert !EndsWith(AvailabilityPath, ReservationsPath) by {
      assert AvailabilityPath[|AvailabilityPath| - |ReservationsPath|..][12] == 'y';
    }
    assert !EndsWith(UserPath, ReservationsPath) by {
      assert UserPath[|UserPath| - |ReservationsPath|..][12] == 'r';
    }
    assert !EndsWith(CohosterPath, ReservationsPath) by {
      assert CohosterPath[|CohosterPath| - |ReservationsPath|..][12] == 'r';
    }
    assert !EndsWith(AvailabilityPath, UserPath) by {
      assert AvailabilityPath[|AvailabilityPath| - |UserPath|..][17] == 'y';
    }
    assert !EndsWith(AvailabilityPath, CohosterPath) by {
      assert AvailabilityPath[|AvailabilityPath| - |CohosterPath|..][21] == 'y';
    }
    assert !EndsWith(CohosterPath, UserPath) by {
      assert CohosterPath[|CohosterPath| - |UserPath|..][13] == 'o';
    }
    NotBothSuffixes(p, ReservationsPath, AvailabilityPath);
    NotBothSuffixes(p, ReservationsPath, UserPath);
    NotBothSuffixes(p, ReservationsPath, CohosterPath);
    NotBothSuffixes(p, UserPath, AvailabilityPath);
    NotBothSuffixes(p, CohosterPath, AvailabilityPath);
    NotBothSuffixes(p, UserPath, CohosterPath);
  }

  /** The chain answers exactly as the routing table: a handler is chosen
      if and only if the table accepts the method and path for it, and the
      request is unsupported if and only if the table accepts it for none,
      so the order of the branches does not matter. */
  lemma RouteFollowsTable(m: string, p: string, r: Handler)
    requires m != "" && p != ""
    ensures Route(Some(m), Some(p)) == Handle(r) <==> Accepts(r, m, p)
    ensures Route(Some(m), Some(p)) == Unsupported(m, p) <==>
      forall r' :: !Accepts(r', m, p)
  {
    SuffixesExclusive(p);
    var d := Route(Some(m), Some(p));
    if d.Handle? {
      assert Accepts(d.handler, m, p);
    }
  }
}
