/** The table of connections: which key owns which bufferevent, and the timers set for it. */
module ConnectBev {
  import opened Options

  /** A bufferevent, by identity. */
  type Bev = nat

  /** The three maps of the table. The other fields record what happened: every bufferevent handed to
      the table, the order in which it freed them, and those it dropped without freeing. */
  datatype Conns = Conns(
    table: map<string, Bev>, readTimers: map<string, int>, writeTimers: map<string, int>,
    handed: set<Bev>, freed: seq<Bev>, lost: set<Bev>)

  const NO_CONNS := Conns(map[], map[], map[], {}, [], {})

  /** The outcome of resolving, connecting and naming an outgoing connection. */
  datatype Dial = Unresolved | Failed(bev: Bev) | Dialled(key: string, bev: Bev)

  // `insert` on a map leaves an existing entry alone.
  function Insert(c: Conns, key: string, bev: Bev): Conns {
    var d := c.(handed := c.handed + {bev});
    if key in c.table then d.(lost := d.lost + {bev}) else d.(table := d.table[key := bev])
  }

  function AddBev(c: Conns, key: string, bev: Bev): (Conns, int) {
    if key in c.table then (c, 1) else (Insert(c, key, bev), 0)
  }

  /** A connection that the listener accepted; an empty key means that it is already gone. */
  function NewAccepted(c: Conns, key: string, bev: Bev): (Conns, string) {
    if key == "" then (c, "") else (Insert(c, key, bev), key)
  }

  /** A connection that a relay opens. One that fails at once is freed at once. */
  function NewDialled(c: Conns, dial: Dial): (Conns, string) {
    match dial
    case Unresolved => (c, "")
    case Failed(bev) => (c.(handed := c.handed + {bev}, freed := c.freed + [bev]), "")
    case Dialled(key, bev) => (Insert(c, key, bev), key)
  }

  function GetBev(c: Conns, key: string): Option<Bev> {
    if key in c.table then Some(c.table[key]) else None
  }

  function SetTimer(c: Conns, key: string, readSecs: int, writeSecs: int): Conns {
    if key !in c.table then c
    else c.(readTimers := c.readTimers[key := readSecs], writeTimers := c.writeTimers[key := writeSecs])
  }

  function DelTimer(c: Conns, key: string): Conns {
    if key !in c.table then c
    else c.(readTimers := c.readTimers - {key}, writeTimers := c.writeTimers - {key})
  }

  function DelBev(c: Conns, key: string): Conns {
    var d := DelTimer(c, key);
    if key !in d.table then d
    else d.(table := d.table - {key}, freed := d.freed + [d.table[key]])
  }

  /** Inserts the new key and erases the old one. A new key that is taken loses the bufferevent. */
  function SetKey(c: Conns, oldKey: string, newKey: string): Conns {
    if oldKey !in c.table then c
    else
      var bev := c.table[oldKey];
      var inserted := if newKey in c.table then c.table else c.table[newKey := bev];
      c.(table := inserted - {oldKey}, lost := if newKey in c.table then c.lost + {bev} else c.lost)
  }

  /** `named` is the key computed from the socket, empty if it cannot be computed. */
  function RecalculateKey(c: Conns, oldKey: string, named: string): (Conns, string) {
    if oldKey !in c.table || named == "" || named == oldKey then (c, oldKey)
    else (SetKey(c, oldKey, named), named)
  }

  // ----- The table object -----

  class ConnectTable {
    var connectMap: map<string, Bev>
    var readTimerMap: map<string, int>
    var writeTimerMap: map<string, int>
    ghost var handed: set<Bev>
    ghost var freed: seq<Bev>
    ghost var lost: set<Bev>

    ghost function View(): Conns
      reads this
    {
      Conns(connectMap, readTimerMap, writeTimerMap, handed, freed, lost)
    }

    constructor ()
      ensures View() == NO_CONNS
    {
      connectMap, readTimerMap, writeTimerMap := map[], map[], map[];
      handed, freed, lost := {}, [], {};
    }

    method InsertBev(key: string, bev: Bev)
      modifies this
      ensures View() == Insert(old(View()), key, bev)
    {
      handed := handed + {bev};
      if key in connectMap {
        lost := lost + {bev};
      } else {
        connectMap := connectMap[key := bev];
      }
    }

    method Add(key: string, bev: Bev) returns (ret: int)
      modifies this
      ensures (View(), ret) == AddBev(old(View()), key, bev)
    {
      if key in connectMap {
        return 1;
      }
      InsertBev(key, bev);
      ret := 0;
    }

    method NewFromDial(dial: Dial) returns (key: string)
      modifies this
      ensures (View(), key) == NewDialled(old(View()), dial)
    {
      match dial {
        case Unresolved =>
          return "";
        case Failed(bev) =>
          handed := handed + {bev};
          freed := freed + [bev];
          return "";
        case Dialled(k, bev) =>
          InsertBev(k, bev);
          return k;
      }
    }

    method NewFromAccept(named: string, bev: Bev) returns (key: string)
      modifies this
      ensures (View(), key) == NewAccepted(old(View()), named, bev)
    {
      if named == "" {
        return named;
      }
      InsertBev(named, bev);
      key := named;
    }

    method Get(key: string) returns (bev: Option<Bev>)
      ensures bev == GetBev(View(), key)
    {
      bev := if key in connectMap then Some(connectMap[key]) else None;
    }

    method SetTimers(key: string, readSecs: int, writeSecs: int)
      modifies this
      ensures View() == SetTimer(old(View()), key, readSecs, writeSecs)
    {
      if key in connectMap {
        readTimerMap := readTimerMap[key := readSecs];
        writeTimerMap := writeTimerMap[key := writeSecs];
      }
    }

    method DelTimers(key: string)
      modifies this
      ensures View() == DelTimer(old(View()), key)
    {
      if key in connectMap {
        readTimerMap := readTimerMap - {key};
        writeTimerMap := writeTimerMap - {key};
      }
    }

    method Del(key: string) returns (ret: int)
      modifies this
      ensures View() == DelBev(old(View()), key)
      ensures ret == if key in old(connectMap) then 0 else 1
    {
      DelTimers(key);
      if key !in connectMap {
        return 1;
      }
      freed := freed + [connectMap[key]];
      connectMap := connectMap - {key};
      ret := 0;
    }

    method Rename(oldKey: string, newKey: string)
      modifies this
      ensures View() == SetKey(old(View()), oldKey, newKey)
    {
      if oldKey in connectMap {
        var bev := connectMap[oldKey];
        if newKey in connectMap {
          lost := lost + {bev};
        } else {
          connectMap := connectMap[newKey := bev];
        }
        connectMap := connectMap - {oldKey};
      }
    }

    method Recalculate(oldKey: string, named: string) returns (key: string)
      modifies this
      ensures (View(), key) == RecalculateKey(old(View()), oldKey, named)
    {
      if oldKey !in connectMap {
        return oldKey;
      }
      if named == "" || named == oldKey {
        return oldKey;
      }
      Rename(oldKey, named);
      key := named;
    }

    method Perform(op: Op)
      modifies this
      ensures View() == Apply(old(View()), op)
    {
      match op {
        case Add(key, bev) => var _ := Add(key, bev);
        case Accept(key, bev) => var _ := NewFromAccept(key, bev);
        case Open(dial) => var _ := NewFromDial(dial);
        case Del(key) => var _ := Del(key);
        case Rename(oldKey, newKey) => Rename(oldKey, newKey);
        case Recalc(oldKey, named) => var _ := Recalculate(oldKey, named);
        case StartTimer(key, r, w) => SetTimers(key, r, w);
        case StopTimer(key) => DelTimers(key);
      }
    }
  }

  // ----- Every sequence of operations -----

  datatype Op =
    | Add(key: string, bev: Bev)
    | Accept(key: string, bev: Bev)
    | Open(dial: Dial)
    | Del(key: string)
    | Rename(oldKey: string, newKey: string)
    | Recalc(oldKey: string, named: string)
    | StartTimer(key: string, readSecs: int, writeSecs: int)
    | StopTimer(key: string)

  function Apply(c: Conns, op: Op): Conns {
    match op
    case Add(key, bev) => AddBev(c, key, bev).0
    case Accept(key, bev) => NewAccepted(c, key, bev).0
    case Open(dial) => NewDialled(c, dial).0
    case Del(key) => DelBev(c, key)
    case Rename(oldKey, newKey) => SetKey(c, oldKey, newKey)
    case Recalc(oldKey, named) => RecalculateKey(c, oldKey, named).0
    case StartTimer(key, r, w) => SetTimer(c, key, r, w)
    case StopTimer(key) => DelTimer(c, key)
  }

  /** The operation hands over a bufferevent that has just been allocated, if it hands over any. */
  predicate Fresh(c: Conns, op: Op) {
    match op
    case Add(_, bev) => bev !in c.handed
    case Accept(_, bev) => bev !in c.handed
    case Open(Failed(bev)) => bev !in c.handed
    case Open(Dialled(_, bev)) => bev !in c.handed
    case _ => true
  }

  /** The keys that an operation names. */
  function KeysOf(op: Op): set<string> {
    match op
    case Open(Dialled(key, _)) => {key}
    case Open(_) => {}
    case Rename(oldKey, newKey) => {oldKey, newKey}
    case Recalc(oldKey, named) => {oldKey, named}
    case _ => {op.key}
  }

  function Run(ops: seq<Op>): Conns {
    if |ops| == 0 then NO_CONNS else Apply(Run(ops[..|ops| - 1]), ops[|ops| - 1])
  }

  predicate AllFresh(ops: seq<Op>) {
    |ops| > 0 ==> AllFresh(ops[..|ops| - 1]) && Fresh(Run(ops[..|ops| - 1]), ops[|ops| - 1])
  }

  /** No bufferevent is freed twice, no key leads to a freed one, no two keys share one, and the two
      timer maps have the same keys. */
  ghost predicate Safe(c: Conns) {
    && (forall i, j | 0 <= i < j < |c.freed| :: c.freed[i] != c.freed[j])
    && (forall k | k in c.table :: c.table[k] !in c.freed)
    && (forall k, l | k in c.table && l in c.table && k != l :: c.table[k] != c.table[l])
    && c.readTimers.Keys == c.writeTimers.Keys
  }

  /** Every bufferevent ever handed over is in the table, or freed, or lost, and only one of these. */
  ghost predicate Conserved(c: Conns) {
    && (forall b: Bev :: b in c.handed <==> b in c.table.Values || b in c.freed || b in c.lost)
    && (forall b | b in c.lost :: b !in c.freed && b !in c.table.Values)
  }

  /** The key that the operation wants to insert is taken. */
  predicate Collides(c: Conns, op: Op) {
    match op
    case Accept(key, _) => key != "" && key in c.table
    case Open(Dialled(key, _)) => key in c.table
    case Rename(oldKey, newKey) => oldKey in c.table && newKey in c.table
    case Recalc(oldKey, named) => oldKey in c.table && named != "" && named != oldKey && named in c.table
    case _ => false
  }

  lemma InsertKeepsSafe(c: Conns, key: string, bev: Bev)
    requires Safe(c) && Conserved(c) && bev !in c.handed
    ensures Safe(Insert(c, key, bev)) && Conserved(Insert(c, key, bev))
  {
    var d := Insert(c, key, bev);
    forall k | k in c.table
      ensures c.table[k] in c.table.Values && c.table[k] != bev
    {}
    if key !in c.table {
      assert d.table[key] == bev;
      assert d.table.Values == c.table.Values + {bev} by {
        forall k | k in c.table
          ensures d.table[k] == c.table[k]
        {}
      }
    }
  }

  lemma RemovedValues(m: map<string, Bev>, key: string)
    requires key in m && forall k, l | k in m && l in m && k != l :: m[k] != m[l]
    ensures (m - {key}).Values == m.Values - {m[key]}
  {
    forall b | b in m.Values - {m[key]}
      ensures b in (m - {key}).Values
    {
      var k :| k in m && m[k] == b;
      assert k in (m - {key});
    }
  }

  lemma DelKeepsSafe(c: Conns, key: string)
    requires Safe(c) && Conserved(c)
    ensures Safe(DelBev(c, key)) && Conserved(DelBev(c, key))
  {
    if key in c.table {
      RemovedValues(c.table, key);
      assert c.table[key] in c.table.Values;
    }
  }

  lemma RenameKeepsSafe(c: Conns, oldKey: string, newKey: string)
    requires Safe(c) && Conserved(c)
    ensures Safe(SetKey(c, oldKey, newKey)) && Conserved(SetKey(c, oldKey, newKey))
  {
    if oldKey in c.table {
      var bev, d := c.table[oldKey], SetKey(c, oldKey, newKey);
      assert bev in c.table.Values;
      RemovedValues(c.table, oldKey);
      if newKey !in c.table {
        assert d.table == (c.table - {oldKey})[newKey := bev];
        assert d.table.Values == (c.table - {oldKey}).Values + {bev} by {
          assert d.table[newKey] == bev;
          forall k | k in c.table - {oldKey}
            ensures d.table[k] == c.table[k]
          {}
        }
      } else {
        assert d.table == c.table - {oldKey};
      }
    }
  }

  lemma StepKeepsSafe(c: Conns, op: Op)
    requires Safe(c) && Conserved(c) && Fresh(c, op)
    ensures Safe(Apply(c, op)) && Conserved(Apply(c, op))
  {
    match op {
      case Add(key, bev) => InsertKeepsSafe(c, key, bev);
      case Accept(key, bev) => InsertKeepsSafe(c, key, bev);
      case Open(Dialled(key, bev)) => InsertKeepsSafe(c, key, bev);
      case Open(Failed(bev)) =>
        forall k | k in c.table
          ensures c.table[k] in c.table.Values
        {}
      case Open(Unresolved) =>
      case Del(key) => DelKeepsSafe(c, key);
      case Rename(oldKey, newKey) => RenameKeepsSafe(c, oldKey, newKey);
      case Recalc(oldKey, named) => RenameKeepsSafe(c, oldKey, named);
      case StartTimer(_, _, _) =>
      case StopTimer(_) =>
    }
  }

  lemma OtherEntriesStay(c: Conns, op: Op, key: string)
    requires key !in KeysOf(op)
    ensures var d := Apply(c, op); (key in d.table <==> key in c.table) && (key in c.table ==> d.table[key] == c.table[key])
  {}

  lemma FreedStaysFreed(c: Conns, op: Op)
    ensures c.freed <= Apply(c, op).freed && c.handed <= Apply(c, op).handed
  {}

  /** Over every sequence of operations with freshly allocated bufferevents the table is safe, and
      every bufferevent is accounted for. */
  lemma {:induction false} RunsAreSafe(ops: seq<Op>)
    requires AllFresh(ops)
    ensures Safe(Run(ops)) && Conserved(Run(ops))
  {
    if |ops| > 0 {
      RunsAreSafe(ops[..|ops| - 1]);
      StepKeepsSafe(Run(ops[..|ops| - 1]), ops[|ops| - 1]);
    }
  }

  lemma InsertLoses(c: Conns, key: string, bev: Bev)
    requires Conserved(c) && bev !in c.handed
    ensures var d := Insert(c, key, bev);
            (d.lost != c.lost <==> key in c.table) && |d.lost| == |c.lost| + if key in c.table then 1 else 0
  {
    assert bev !in c.lost;
  }

  lemma RenameLoses(c: Conns, oldKey: string, newKey: string)
    requires Conserved(c)
    ensures var d, taken := SetKey(c, oldKey, newKey), oldKey in c.table && newKey in c.table;
            (d.lost != c.lost <==> taken) && |d.lost| == |c.lost| + if taken then 1 else 0
  {
    if oldKey in c.table {
      assert c.table[oldKey] in c.table.Values;
      assert c.table[oldKey] !in c.lost;
    }
  }

  /** A step loses a bufferevent exactly when the key it inserts is taken, and then exactly one. */
  lemma LostExactlyOnCollision(c: Conns, op: Op)
    requires Conserved(c) && Fresh(c, op)
    ensures Apply(c, op).lost != c.lost <==> Collides(c, op)
    ensures |Apply(c, op).lost| == |c.lost| + if Collides(c, op) then 1 else 0
  {
    match op {
      case Accept(key, bev) => InsertLoses(c, key, bev);
      case Open(Dialled(key, bev)) => InsertLoses(c, key, bev);
      case Rename(oldKey, newKey) => RenameLoses(c, oldKey, newKey);
      case Recalc(oldKey, named) => RenameLoses(c, oldKey, named);
      case _ =>
    }
  }

  // ----- Timers -----

  /** Every timer belongs to a connection. */
  predicate TimersInTable(c: Conns) {
    c.readTimers.Keys <= c.table.Keys && c.readTimers.Keys == c.writeTimers.Keys
  }

  /** The operation gives a connection with timers another key. */
  predicate RenamesTimed(c: Conns, op: Op) {
    match op
    case Rename(oldKey, _) => oldKey in c.table && oldKey in c.readTimers
    case Recalc(oldKey, named) => oldKey in c.table && oldKey in c.readTimers && named != "" && named != oldKey
    case _ => false
  }

  lemma RenameLeavesTimer(c: Conns, oldKey: string, newKey: string)
    requires TimersInTable(c) && oldKey in c.table
    ensures TimersInTable(SetKey(c, oldKey, newKey)) <==> oldKey !in c.readTimers
  {
    var d := SetKey(c, oldKey, newKey);
    assert oldKey !in d.table;
  }

  /** A connection's timers stay behind when it is renamed: the timers all belong to connections after a
      step exactly if the step does not rename a connection that has timers. */
  lemma TimersStayBehindExactlyOnRename(c: Conns, op: Op)
    requires TimersInTable(c)
    ensures TimersInTable(Apply(c, op)) <==> !RenamesTimed(c, op)
  {
    match op {
      case Rename(oldKey, newKey) => if oldKey in c.table { RenameLeavesTimer(c, oldKey, newKey); }
      case Recalc(oldKey, named) => if oldKey in c.table { RenameLeavesTimer(c, oldKey, named); }
      case _ =>
    }
  }
}
