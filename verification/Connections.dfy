/** The table of upgraded connections, after internal/httpserver/websocket.go. Its mutex makes every
    operation one atomic step; the functions say what the step does, the class does it. */
module Connections {
  import opened Sequences

  datatype Table<!T(==)> = Table(items: set<T>, closing: bool)

  function Add<T>(t: Table<T>, conn: T): (Table<T>, bool) {
    if t.closing then (t, false) else (t.(items := t.items + {conn}), true)
  }

  function Remove<T>(t: Table<T>, conn: T): Table<T> {
    t.(items := t.items - {conn})
  }

  /** An ownership change takes every connection out of the table. */
  function TakeAll<T>(t: Table<T>): (Table<T>, set<T>) {
    (t.(items := {}), t.items)
  }

  /** A restart refuses all later connections; those in the table stay until their handlers end. */
  function BeginClosing<T>(t: Table<T>): (Table<T>, set<T>) {
    (t.(closing := true), t.items)
  }

  class WebSocketConnections<T(==)> {
    var items: set<T>
    var closing: bool

    function View(): Table<T>
      reads this
    {
      Table(items, closing)
    }

    constructor ()
      ensures View() == Table({}, false)
    {
      items, closing := {}, false;
    }

    method Register(conn: T) returns (added: bool)
      modifies this
      ensures (View(), added) == Add(old(View()), conn)
      ensures added == !old(closing) && closing == old(closing)
      ensures items == if added then old(items) + {conn} else old(items)
    {
      if closing {
        return false;
      }
      items := items + {conn};
      return true;
    }

    method Unregister(conn: T)
      modifies this
      ensures View() == Remove(old(View()), conn)
      ensures items == old(items) - {conn} && closing == old(closing)
    {
      items := items - {conn};
    }

    /** Moves the connections one by one into the batch to close. */
    method CloseForOwnershipChange() returns (batch: seq<T>)
      modifies this
      ensures View() == TakeAll(old(View())).0
      ensures items == {} && closing == old(closing) && forall c :: c in batch <==> c in old(items)
      ensures (set c | c in batch) == TakeAll(old(View())).1 && |batch| == |old(items)|
    {
      batch := [];
      while items != {}
        invariant closing == old(closing) && items <= old(items)
        invariant forall c :: c in batch <==> c in old(items) - items
        invariant |batch| + |items| == |old(items)|
        decreases items
      {
        var conn := AnyElement(items);
        batch := batch + [conn];
        items := items - {conn};
      }
      assert forall c :: c in batch <==> c in old(items);
    }

    /** The connections stay in the table until their own handlers remove them. */
    method CloseForServiceRestart() returns (batch: seq<T>)
      modifies this
      ensures View() == BeginClosing(old(View())).0
      ensures closing && items == old(items) && forall c :: c in batch <==> c in items
      ensures (set c | c in batch) == BeginClosing(old(View())).1 && |batch| == |items|
    {
      closing := true;
      batch := [];
      var remaining := items;
      while remaining != {}
        invariant remaining <= items && closing && items == old(items)
        invariant forall c :: c in batch <==> c in items - remaining
        invariant |batch| + |remaining| == |items|
        decreases remaining
      {
        var conn := AnyElement(remaining);
        batch := batch + [conn];
        remaining := remaining - {conn};
      }
      assert forall c :: c in batch <==> c in items;
    }
  }
}
