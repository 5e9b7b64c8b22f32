/** The publisher's routing table: which consumers receive which exact event types. */
module Routes {
  import opened Blanks
  import opened Wrappers

  datatype Route = Route(consumer: string, eventTypes: seq<string>)

  datatype RouteError = InvalidConsumer(name: string) | RoutedTwice(name: string) | NoEventTypes(name: string) | InexactType

  /** `^[a-z][a-z0-9_.:-]{0,63}$` */
  predicate ConsumerName(name: string) {
    && 1 <= |name| <= 64
    && 'a' <= name[0] <= 'z'
    && forall i :: 1 <= i < |name| ==> 'a' <= name[i] <= 'z' || '0' <= name[i] <= '9' || name[i] in "_.:-"
  }

  /** Between one and 64 characters: a lower-case letter, then letters, digits, underscores, points, colons and hyphens. */
  lemma ConsumerNames(name: string)
    ensures ConsumerName(name) <==> exists first, rest :: NameOf(name, first, rest)
  {
    if ConsumerName(name) {
      assert NameOf(name, name[0], name[1..]);
    }
    forall first, rest | NameOf(name, first, rest)
      ensures ConsumerName(name)
    {
      assert forall i :: 1 <= i < |name| ==> name[i] == rest[i - 1] && rest[i - 1] in rest;
    }
  }

  predicate NameOf(name: string, first: char, rest: string) {
    && name == [first] + rest && 'a' <= first <= 'z' && |rest| <= 63
    && forall c :: c in rest ==> 'a' <= c <= 'z' || '0' <= c <= '9' || c == '_' || c == '.' || c == ':' || c == '-'
  }

  predicate ExactType(eventType: string) {
    !Blank(eventType) && '*' !in eventType
  }

  /** Something is left of it when trimmed, and no character is a star. */
  lemma ExactTypes(eventType: string)
    ensures ExactType(eventType) <==> Trim(eventType) != "" && forall i :: 0 <= i < |eventType| ==> eventType[i] != '*'
  {
    TrimmedIsBlank(eventType);
  }

  /** What is wrong with route `i`, in the order in which it is checked. */
  function Fault(routes: seq<Route>, i: nat): Option<RouteError>
    requires i < |routes|
  {
    var route := routes[i];
    if !ConsumerName(route.consumer) then Some(InvalidConsumer(route.consumer))
    else if exists j :: 0 <= j < i && routes[j].consumer == route.consumer then Some(RoutedTwice(route.consumer))
    else if route.eventTypes == [] then Some(NoEventTypes(route.consumer))
    else if exists k :: 0 <= k < |route.eventTypes| && !ExactType(route.eventTypes[k]) then Some(InexactType)
    else None
  }

  predicate FirstFault(routes: seq<Route>, i: nat, error: RouteError) {
    i < |routes| && Fault(routes, i) == Some(error) && forall j :: 0 <= j < i ==> Fault(routes, j) == None
  }

  function Subscribers(byType: map<string, seq<string>>, eventType: string): seq<string> {
    if eventType in byType then byType[eventType] else []
  }

  /** One of the first `n` routes, or the first `m` types of route `n`, subscribes the consumer. */
  predicate Subscribes(routes: seq<Route>, n: nat, m: nat, consumer: string, eventType: string)
    requires n <= |routes|
  {
    || (exists i :: 0 <= i < n && routes[i].consumer == consumer && eventType in routes[i].eventTypes)
    || (n < |routes| && m <= |routes[n].eventTypes| && routes[n].consumer == consumer && eventType in routes[n].eventTypes[..m])
  }

  /** The table subscribes exactly whom the routes read so far subscribe. */
  ghost predicate Tabulates(routes: seq<Route>, n: nat, m: nat, byType: map<string, seq<string>>)
    requires n <= |routes|
  {
    forall c, t :: c in Subscribers(byType, t) <==> Subscribes(routes, n, m, c, t)
  }

  lemma TabulateOne(routes: seq<Route>, n: nat, m: nat, byType: map<string, seq<string>>, t: string)
    requires n < |routes| && m < |routes[n].eventTypes| && t == routes[n].eventTypes[m]
    requires Tabulates(routes, n, m, byType)
    ensures Tabulates(routes, n, m + 1, byType[t := Subscribers(byType, t) + [routes[n].consumer]])
  {
    var more := byType[t := Subscribers(byType, t) + [routes[n].consumer]];
    forall c, u
      ensures c in Subscribers(more, u) <==> Subscribes(routes, n, m + 1, c, u)
    {
      assert routes[n].eventTypes[..m + 1] == routes[n].eventTypes[..m] + [t];
      assert c in Subscribers(byType, u) <==> Subscribes(routes, n, m, c, u);
    }
  }

  lemma TabulateRoute(routes: seq<Route>, n: nat, byType: map<string, seq<string>>)
    requires n < |routes| && Tabulates(routes, n, |routes[n].eventTypes|, byType)
    ensures Tabulates(routes, n + 1, 0, byType)
  {
    assert routes[n].eventTypes[..|routes[n].eventTypes|] == routes[n].eventTypes;
    forall c, t
      ensures c in Subscribers(byType, t) <==> Subscribes(routes, n + 1, 0, c, t)
    {
      assert c in Subscribers(byType, t) <==> Subscribes(routes, n, |routes[n].eventTypes|, c, t);
    }
  }

  /**
   The table of a routing, or the first fault of it. A consumer is listed under a type exactly when one
   of its routes names the type.
   */
  method ValidatedRoutes(routes: seq<Route>) returns (r: Result<map<string, seq<string>>, RouteError>)
    ensures r.Ok? <==> forall i :: 0 <= i < |routes| ==> Fault(routes, i) == None
    ensures r.Err? ==> exists i: nat :: FirstFault(routes, i, r.error)
    ensures r.Ok? ==> forall c, t :: c in Subscribers(r.value, t) <==>
      exists i :: 0 <= i < |routes| && routes[i].consumer == c && t in routes[i].eventTypes
  {
    var byType: map<string, seq<string>> := map[];
    var consumers: set<string> := {};
    for n := 0 to |routes|
      invariant forall i :: 0 <= i < n ==> Fault(routes, i) == None
      invariant forall c :: c in consumers <==> exists i :: 0 <= i < n && routes[i].consumer == c
      invariant Tabulates(routes, n, 0, byType)
    {
      var route := routes[n];
      if !ConsumerName(route.consumer) {
        assert FirstFault(routes, n, InvalidConsumer(route.consumer));
        return Err(InvalidConsumer(route.consumer));
      }
      if route.consumer in consumers {
        assert FirstFault(routes, n, RoutedTwice(route.consumer));
        return Err(RoutedTwice(route.consumer));
      }
      consumers := consumers + {route.consumer};
      if |route.eventTypes| == 0 {
        assert FirstFault(routes, n, NoEventTypes(route.consumer));
        return Err(NoEventTypes(route.consumer));
      }
      for m := 0 to |route.eventTypes|
        invariant forall k :: 0 <= k < m ==> ExactType(route.eventTypes[k])
        invariant Tabulates(routes, n, m, byType)
      {
        var t := route.eventTypes[m];
        if !ExactType(t) {
          assert FirstFault(routes, n, InexactType);
          return Err(InexactType);
        }
        TabulateOne(routes, n, m, byType, t);
        byType := byType[t := Subscribers(byType, t) + [route.consumer]];
      }
      TabulateRoute(routes, n, byType);
    }
    r := Ok(byType);
    forall c, t
      ensures c in Subscribers(byType, t) <==> exists i :: 0 <= i < |routes| && routes[i].consumer == c && t in routes[i].eventTypes
    {
      assert c in Subscribers(byType, t) <==> Subscribes(routes, |routes|, 0, c, t);
    }
  }
}
