/**
 * The `App` shell of the `reactjs` client: the selected connection and how
 * the route parameter and the autocomplete set it, the connection lists and
 * their `|| []` fallback, and the autocomplete's match and order.
 */
module App {
  import opened Js

  /** What `setSelectedConnection` is handed: a connection id string or a connection object. */
  datatype ConnectionArg = Text(id: string) | Object(connection: Obj)

  /** `{ id: s }` for a string, the object itself otherwise. */
  function NormalizeConnection(arg: ConnectionArg): (c: Obj)
    ensures arg.Text? ==> c.Keys == {"id"} && c["id"] == Str(arg.id)
    ensures arg.Object? ==> c == arg.connection
  {
    match arg
    case Text(s) => map["id" := Str(s)]
    case Object(o) => o
  }

  /** `json.result.connections || []`: a missing (`null`, absent) list becomes the empty list. */
  function ConnectionsOrEmpty(connections: Option<seq<Obj>>): (r: seq<Obj>)
    ensures connections.None? ==> r == []
    ensures connections.Some? ==> r == connections.value
  {
    if connections.Some? then connections.value else []
  }

  class App {
    var connections: seq<Obj>
    var activeConnections: seq<Obj>
    var selectedConnection: Obj
    var autocompleteField: string

    constructor ()
      ensures connections == [] && activeConnections == [] && selectedConnection == map[] && autocompleteField == ""
    {
      connections := [];
      activeConnections := [];
      selectedConnection := map[];
      autocompleteField := "";
    }

    method SetSelectedConnection(arg: ConnectionArg)
      modifies this
      ensures selectedConnection == NormalizeConnection(arg)
      ensures connections == old(connections) && activeConnections == old(activeConnections)
      ensures autocompleteField == old(autocompleteField)
    {
      if arg.Text? {
        selectedConnection := map["id" := Str(arg.id)];
        return;
      }
      selectedConnection := arg.connection;
    }

    /** Mounting with a connection in the route selects `{ id: <route parameter> }`; otherwise the selection stays. */
    method ComponentDidMount(routeConnection: Value)
      modifies this
      ensures Truthy(routeConnection) ==> selectedConnection == map["id" := routeConnection]
      ensures !Truthy(routeConnection) ==> selectedConnection == old(selectedConnection)
      ensures connections == old(connections) && activeConnections == old(activeConnections)
      ensures autocompleteField == old(autocompleteField)
    {
      if Truthy(routeConnection) {
        SetSelectedConnection(Object(map["id" := routeConnection]));
      }
    }

    /** The reply to the connection-list request. */
    method OnConnectionList(list: seq<Obj>)
      modifies this
      ensures connections == list
      ensures activeConnections == old(activeConnections) && selectedConnection == old(selectedConnection)
      ensures autocompleteField == old(autocompleteField)
    {
      connections := list;
    }

    /** The reply to an active-connection-list request, on mount and after each login. */
    method OnActiveConnections(list: Option<seq<Obj>>)
      modifies this
      ensures activeConnections == ConnectionsOrEmpty(list)
      ensures connections == old(connections) && selectedConnection == old(selectedConnection)
      ensures autocompleteField == old(autocompleteField)
    {
      activeConnections := ConnectionsOrEmpty(list);
    }

    /** Picking an autocomplete item shows its value, selects the connection and returns it for the login request. */
    method OnSelect(value: string, connection: Obj) returns (login: Obj)
      modifies this
      ensures autocompleteField == value && selectedConnection == connection && login == connection
      ensures connections == old(connections) && activeConnections == old(activeConnections)
    {
      autocompleteField := value;
      selectedConnection := connection;
      login := connection;
    }
  }

  /** `t` occurs somewhere in `s`. */
  ghost predicate Contains(s: string, t: string)
  {
    exists k :: OccursAt(s, t, k)
  }

  /** `s.indexOf(t) !== -1` tests exactly for an occurrence. */
  lemma IndexOfFindsOccurrence(s: string, t: string)
    ensures IndexOf(s, t) != -1 <==> Contains(s, t)
  {
    IndexOfSpec(s, t);
    if IndexOf(s, t) != -1 {
      assert OccursAt(s, t, IndexOf(s, t));
    }
  }

  /** An autocomplete item is shown when the lower-cased input occurs in its lower-cased id. */
  function ShouldItemRender(itemId: string, value: string): (shown: bool)
    ensures shown <==> Contains(Lower(itemId), Lower(value))
  {
    IndexOfFindsOccurrence(Lower(itemId), Lower(value));
    IndexOf(Lower(itemId), Lower(value)) != -1
  }

  /** An empty input shows every item. */
  lemma EmptyInputShowsAll(itemId: string)
    ensures ShouldItemRender(itemId, "")
  {
    IndexOfEmpty(Lower(itemId));
  }

  /** The match ignores the case of ASCII letters on both sides. */
  lemma ShouldItemRenderIgnoresCase(itemId: string, value: string)
    ensures ShouldItemRender(Lower(itemId), Lower(value)) == ShouldItemRender(itemId, value)
  {
    LowerIdempotent(itemId);
    LowerIdempotent(value);
  }

  /** Lower-casing twice is lower-casing once. */
  lemma LowerIdempotent(s: string)
    ensures Lower(Lower(s)) == Lower(s)
  {
    assert forall i :: 0 <= i < |s| ==> LowerChar(LowerChar(s[i])) == LowerChar(s[i]);
  }

  /** `a.id.toLowerCase() <= b.id.toLowerCase() ? -1 : 1`. */
  function SortItems(a: string, b: string): (r: int)
    ensures r == -1 || r == 1
    ensures r == -1 <==> StrLessEq(Lower(a), Lower(b))
  {
    if StrLessEq(Lower(a), Lower(b)) then -1 else 1
  }

  /** Ids equal up to case compare as "before" in both orders: the comparator never reports a tie. */
  lemma SortItemsTies(a: string, b: string)
    requires Lower(a) == Lower(b)
    ensures SortItems(a, b) == -1 && SortItems(b, a) == -1
  {
  }

  /** Ids that differ after lower-casing are ordered one way round. */
  lemma SortItemsAntisymmetric(a: string, b: string)
    requires Lower(a) != Lower(b)
    ensures SortItems(a, b) == -SortItems(b, a)
  {
    StrLessTrichotomy(Lower(a), Lower(b));
  }

  /** "Before" is transitive, so the order is a total preorder on the lower-cased ids. */
  lemma SortItemsTransitive(a: string, b: string, c: string)
    requires SortItems(a, b) == -1 && SortItems(b, c) == -1
    ensures SortItems(a, c) == -1
  {
    StrLessEqTransitive(Lower(a), Lower(b), Lower(c));
  }
}
