/**
  The table as the program keeps it: one fixed array of nodes, threaded in place by next
  and prev into a list of live chunks in address order and a pool of spare nodes. Pointers
  are positions in the array, NULL is -1.
  */
module Dictionary {
  import opened Basics
  import opened Chunks
  import opened Division

  datatype Node = Node(prev: int, next: int, chunk: Chunk)

  type Order = seq<nat>

  // ---------- links, on the contents of the array ----------

  /** A list of distinct positions of the array. */
  ghost predicate Positions(t: seq<Node>, s: Order) {
    && (forall i :: 0 <= i < |s| ==> s[i] < |t|)
    && (forall i, j :: 0 <= i < j < |s| ==> s[i] != s[j])
  }

  /** Position of the i-th node of the list, NULL past its end. */
  function At(s: Order, i: int): int {
    if 0 <= i < |s| then s[i] else NULL
  }

  /** The nodes are linked by `next` in this order, starting at head. */
  ghost predicate NextLinked(t: seq<Node>, s: Order, head: int) {
    && Positions(t, s) && head == At(s, 0)
    && forall i :: 0 <= i < |s| ==> NextOk(t, s, i)
  }

  predicate NextOk(t: seq<Node>, s: Order, i: nat)
    requires i < |s| && s[i] < |t|
  {
    t[s[i]].next == At(s, i + 1)
  }

  /** The `prev` link of the i-th node of the list is right. */
  predicate BackOk(t: seq<Node>, s: Order, i: nat)
    requires i < |s| && s[i] < |t|
  {
    t[s[i]].prev == At(s, i - 1)
  }

  ghost predicate BackLinked(t: seq<Node>, s: Order)
    requires Positions(t, s)
  {
    forall i :: 0 <= i < |s| ==> BackOk(t, s, i)
  }

  /** The listed nodes carry these chunks. */
  ghost predicate Shows(t: seq<Node>, s: Order, cs: seq<Chunk>)
    requires Positions(t, s)
  {
    |cs| == |s| && forall i :: 0 <= i < |s| ==> t[s[i]].chunk == cs[i]
  }

  /** The state in which a spare node must be for reuse. */
  predicate Spare(n: Node) { n.chunk == Blank(n.chunk.addr, 0) }

  ghost predicate AllSpare(t: seq<Node>, s: Order)
    requires Positions(t, s)
  {
    forall i :: 0 <= i < |s| ==> Spare(t[s[i]])
  }

  ghost predicate Apart(s: Order, p: Order) {
    forall i, j :: 0 <= i < |s| && 0 <= j < |p| ==> s[i] != p[j]
  }

  /** Spare nodes point back at the one nearer the head of the pool. */
  ghost predicate PoolBack(t: seq<Node>, p: Order)
    requires Positions(t, p)
  {
    forall i :: 0 < i < |p| ==> BackOk(t, p, i)
  }

  /** The live list shows the chunks cs; every node is live or spare, never both. */
  ghost predicate Threaded(t: seq<Node>, s: Order, p: Order, head: int, spares: int, cs: seq<Chunk>) {
    && |s| > 0 && |s| + |p| == |t|
    && NextLinked(t, s, head) && NextLinked(t, p, spares) && Apart(s, p)
    && Shows(t, s, cs) && AllSpare(t, p) && PoolBack(t, p)
  }

  function Inserted<T>(s: seq<T>, k: nat, x: T): seq<T>
    requires k <= |s|
  {
    s[..k] + [x] + s[k..]
  }

  function Removed<T>(s: seq<T>, k: nat): seq<T>
    requires k < |s|
  {
    s[..k] + s[k + 1..]
  }

  function SetNext(t: seq<Node>, x: int, y: int): seq<Node> {
    if 0 <= x < |t| then t[x := t[x].(next := y)] else t
  }

  function SetPrev(t: seq<Node>, x: int, y: int): seq<Node> {
    if 0 <= x < |t| then t[x := t[x].(prev := y)] else t
  }

  // ---------- taking a node off the pool ----------

  function Popped(t: seq<Node>, head: nat): seq<Node>
    requires head < |t|
  {
    SetPrev(t, t[head].next, NULL)
  }

  /** Changing only `prev` links touches neither the order nor the chunks. */
  ghost predicate SameButPrev(t: seq<Node>, u: seq<Node>) {
    |t| == |u| && forall i :: 0 <= i < |t| ==> t[i].next == u[i].next && t[i].chunk == u[i].chunk
  }

  lemma PopKeeps(t: seq<Node>, s: Order, p: Order, head: int)
    requires NextLinked(t, p, head) && |p| > 0 && Positions(t, s) && Apart(s, p)
    ensures var u := Popped(t, head);
            && SameButPrev(t, u) && NextLinked(u, p[1..], t[head].next)
            && forall i :: 0 <= i < |s| ==> u[s[i]] == t[s[i]]
  {
    var u := Popped(t, head);
    forall i | 0 <= i < |p[1..]| ensures NextOk(u, p[1..], i) {
      assert NextOk(t, p, i + 1);
    }
    assert NextOk(t, p, 0);
  }

  /** Without its first node the pool still points back rightly. */
  lemma PopBack(t: seq<Node>, p: Order, head: int)
    requires NextLinked(t, p, head) && |p| > 0 && PoolBack(t, p)
    ensures PoolBack(Popped(t, head), p[1..])
  {
    var u := Popped(t, head);
    assert NextOk(t, p, 0);
    forall i | 0 < i < |p[1..]| ensures BackOk(u, p[1..], i) {
      assert BackOk(t, p, i + 1);
      assert p[i + 1] != p[1];
    }
  }

  lemma PushBack(t: seq<Node>, p: Order, head: int, n: nat)
    requires NextLinked(t, p, head) && n < |t| && n !in p && PoolBack(t, p)
    ensures Positions(Pushed(t, n, head), [n] + p) && PoolBack(Pushed(t, n, head), [n] + p)
  {
    var u, r := Pushed(t, n, head), [n] + p;
    forall i | 0 < i < |r| ensures BackOk(u, r, i) {
      if i > 1 {
        assert BackOk(t, p, i - 1);
        assert p[i - 1] != p[0];
      }
    }
  }

  // ---------- linking a node after another ----------

  function LinkedAfter(t: seq<Node>, item: nat, n: nat): seq<Node>
    requires item < |t| && n < |t|
  {
    var t1 := SetPrev(t, t[item].next, n);
    var t2 := SetNext(t1, n, t1[item].next);
    var t3 := SetPrev(t2, n, item);
    SetNext(t3, item, n)
  }

  /** The four assignments, field by field. */
  lemma LinkFields(t: seq<Node>, item: nat, n: nat)
    requires item < |t| && n < |t| && item != n && t[item].next != n && t[item].next != item
    ensures var u, y := LinkedAfter(t, item, n), t[item].next;
            && |u| == |t| && u[item].next == n && u[n].next == y && u[n].prev == item
            && (0 <= y < |t| ==> u[y].prev == n)
            && (forall x :: 0 <= x < |t| ==> u[x].chunk == t[x].chunk)
            && (forall x :: 0 <= x < |t| && x != item && x != n ==> u[x].next == t[x].next)
            && (forall x :: 0 <= x < |t| && x != n && x != y ==> u[x].prev == t[x].prev)
  {
  }

  lemma LinkKeeps(t: seq<Node>, s: Order, head: int, i: nat, n: nat)
    requires NextLinked(t, s, head) && i < |s| && n < |t| && n !in s
    ensures var u := LinkedAfter(t, s[i], n);
            && NextLinked(u, Inserted(s, i + 1, n), head)
            && |u| == |t| && (forall x :: 0 <= x < |t| ==> u[x].chunk == t[x].chunk)
            && (forall x :: 0 <= x < |t| && x !in s && x != n ==> u[x] == t[x])
            && u[n].prev == s[i] && (i + 1 < |s| ==> u[s[i + 1]].prev == n)
            && (forall x :: 0 <= x < |t| && x != n && x != At(s, i + 1) ==> u[x].prev == t[x].prev)
  {
    assert NextOk(t, s, i);
    LinkFields(t, s[i], n);
    LinkOrder(t, LinkedAfter(t, s[i], n), s, head, i, n);
  }

  lemma LinkOrder(t: seq<Node>, u: seq<Node>, s: Order, head: int, i: nat, n: nat)
    requires NextLinked(t, s, head) && i < |s| && n < |t| == |u| && n !in s
    requires u[s[i]].next == n && u[n].next == At(s, i + 1)
    requires forall x :: 0 <= x < |t| && x != s[i] && x != n ==> u[x].next == t[x].next
    ensures NextLinked(u, Inserted(s, i + 1, n), head)
  {
    var r := Inserted(s, i + 1, n);
    forall j | 0 <= j < |r| ensures r[j] < |u| && NextOk(u, r, j) {
      if j < i {
        assert NextOk(t, s, j);
      } else if j > i + 1 {
        assert NextOk(t, s, j - 1);
      }
    }
  }

  lemma InsertedBack(t: seq<Node>, s: Order, k: nat, n: nat)
    requires 0 < k <= |s| && Positions(t, s) && n < |t| && n !in s
    requires t[n].prev == s[k - 1] && (k < |s| ==> t[s[k]].prev == n)
    requires forall i :: 0 <= i < |s| && i != k ==> BackOk(t, s, i)
    ensures Positions(t, Inserted(s, k, n)) && BackLinked(t, Inserted(s, k, n))
  {
    var r := Inserted(s, k, n);
    forall j | 0 <= j < |r| ensures r[j] < |t| && BackOk(t, r, j) {
      if j < k {
        assert BackOk(t, s, j);
      } else if j > k + 1 {
        assert BackOk(t, s, j - 1);
      }
    }
  }

  lemma InsertedShows(t: seq<Node>, s: Order, cs: seq<Chunk>, k: nat, n: nat)
    requires k <= |s| && Positions(t, s) && Shows(t, s, cs) && n < |t| && n !in s
    ensures Positions(t, Inserted(s, k, n)) && Shows(t, Inserted(s, k, n), Inserted(cs, k, t[n].chunk))
  {
    var r := Inserted(s, k, n);
    forall j | 0 <= j < |r| ensures r[j] < |t| && t[r[j]].chunk == Inserted(cs, k, t[n].chunk)[j] {
      if j < k {
        assert r[j] == s[j];
      } else if j > k {
        assert r[j] == s[j - 1];
      }
    }
  }

  // ---------- unlinking a node ----------

  /** `n->prev->next = n->next; n->next->prev = n->prev`, without the guards of the list's ends. */
  function Unlinked(t: seq<Node>, n: nat): seq<Node>
    requires n < |t|
  {
    var t1 := SetNext(t, t[n].prev, t[n].next);
    SetPrev(t1, t1[n].next, t1[n].prev)
  }

  lemma UnlinkKeeps(t: seq<Node>, s: Order, head: int, k: nat)
    requires NextLinked(t, s, head) && k < |s| && BackOk(t, s, k)
    ensures var u := Unlinked(t, s[k]);
            && NextLinked(u, Removed(s, k), if k == 0 then t[head].next else head)
            && |u| == |t| && (forall x :: 0 <= x < |t| ==> u[x].chunk == t[x].chunk)
            && (forall x :: 0 <= x < |t| && x !in s ==> u[x] == t[x])
            && u[s[k]] == t[s[k]]
            && (k + 1 < |s| ==> u[s[k + 1]].prev == At(s, k - 1))
            && (forall x :: 0 <= x < |t| && x != At(s, k + 1) ==> u[x].prev == t[x].prev)
  {
    var u := Unlinked(t, s[k]);
    var r := Removed(s, k);
    assert NextOk(t, s, k);
    forall j | 0 <= j < |r| ensures r[j] < |u| && NextOk(u, r, j) {
      if j < k {
        assert NextOk(t, s, j);
      } else {
        assert NextOk(t, s, j + 1);
      }
    }
  }

  lemma RemovedBack(t: seq<Node>, s: Order, k: nat)
    requires k < |s| && Positions(t, s)
    requires k + 1 < |s| ==> t[s[k + 1]].prev == At(s, k - 1)
    requires forall i :: 0 <= i < |s| && i != k && i != k + 1 ==> BackOk(t, s, i)
    ensures Positions(t, Removed(s, k)) && BackLinked(t, Removed(s, k))
  {
    var r := Removed(s, k);
    forall j | 0 <= j < |r| ensures r[j] < |t| && BackOk(t, r, j) {
      if j < k {
        assert BackOk(t, s, j);
      } else if j > k {
        assert BackOk(t, s, j + 1);
      }
    }
  }

  // ---------- putting a node on the pool ----------

  function Pushed(t: seq<Node>, n: nat, head: int): seq<Node>
    requires n < |t|
  {
    SetPrev(SetNext(SetPrev(t, n, NULL), n, head), head, n)
  }

  /** The three assignments, field by field. */
  lemma PushFields(t: seq<Node>, n: nat, head: int)
    requires n < |t| && head != n
    ensures var u := Pushed(t, n, head);
            && |u| == |t| && u[n].next == head && (forall x :: 0 <= x < |t| ==> u[x].chunk == t[x].chunk)
            && (forall x :: 0 <= x < |t| && x != n ==> u[x].next == t[x].next)
            && (forall x :: 0 <= x < |t| && x != n && x != head ==> u[x] == t[x])
  {
  }

  lemma PushKeeps(t: seq<Node>, p: Order, head: int, n: nat)
    requires NextLinked(t, p, head) && n < |t| && n !in p
    ensures var u := Pushed(t, n, head);
            && NextLinked(u, [n] + p, n)
            && |u| == |t| && (forall x :: 0 <= x < |t| ==> u[x].chunk == t[x].chunk)
            && (forall x :: 0 <= x < |t| && x !in p && x != n ==> u[x] == t[x])
  {
    PushFields(t, n, head);
    PushOrder(t, Pushed(t, n, head), p, head, n);
  }

  lemma PushOrder(t: seq<Node>, u: seq<Node>, p: Order, head: int, n: nat)
    requires NextLinked(t, p, head) && n < |t| == |u| && n !in p
    requires u[n].next == head && forall x :: 0 <= x < |t| && x != n ==> u[x].next == t[x].next
    ensures NextLinked(u, [n] + p, n)
  {
    var r := [n] + p;
    forall j | 0 <= j < |r| ensures r[j] < |u| && NextOk(u, r, j) {
      if j > 0 {
        assert NextOk(t, p, j - 1);
      }
    }
  }

  // ---------- the table ----------

  class Dict {
    const total: nat
    const slab: nat
    const lru: bool
    const best: bool
    const frequency: int
    const table: array<Node>
    var elements: int
    var nodes: int
    var current: int
    var due: int

    ghost var live: Order
    ghost var pool: Order
    ghost var cs: seq<Chunk>

    ghost predicate Valid()
      reads this, table
    {
      Threaded(table[..], live, pool, elements, nodes, cs)
    }

    /** Valid, and every live node's `prev` is right. */
    ghost predicate Linked()
      reads this, table
    {
      Valid() && BackLinked(table[..], live)
    }

    /** diccionario_crear: one chunk for the whole table, total / slab - 1 spare nodes. */
    constructor (total: nat, slab: nat, lru: bool, best: bool, frequency: int)
      requires 1 <= slab <= total
      ensures Linked() && fresh(table)
      ensures this.total == total && this.slab == slab && this.lru == lru && this.best == best
      ensures this.frequency == frequency && due == 0 && current == 0
      ensures table.Length == total / slab && live == [0] && |pool| == total / slab - 1
      ensures forall j :: 0 <= j < |pool| ==> pool[j] == j + 1
      ensures cs == [Blank(0, total)] && table[0].prev == NULL
    {
      DivLower(1, slab, total);
      var limit := total / slab;
      this.total, this.slab, this.lru, this.best, this.frequency := total, slab, lru, best, frequency;
      current, due, elements := 0, 0, 0;
      nodes := if limit > 1 then 1 else NULL;
      table := new Node[limit](_ => Node(NULL, NULL, Blank(0, 0)));
      live, pool, cs := [0], seq(limit - 1, i => i + 1), [Blank(0, total)];
      new;
      LinkSpares();
      SpareLinked(table[..], pool);
    }

    /** inicializarElementos: the pool in array order, the first chunk with the whole memory. */
    method LinkSpares()
      requires table.Length >= 1 && forall j :: 0 <= j < table.Length ==> table[j].chunk == Blank(0, 0)
      modifies table
      ensures table[0] == Node(NULL, NULL, Blank(0, total))
      ensures forall j :: 1 <= j < table.Length ==>
                table[j] == Node(if j == 1 then NULL else j - 1, if j + 1 < table.Length then j + 1 else NULL, Blank(0, 0))
    {
      var i := 1;
      while i < table.Length
        invariant 1 <= i <= table.Length
        invariant forall j :: 1 <= j < i ==>
                    table[j] == Node(if j == 1 then NULL else j - 1, if j + 1 < table.Length then j + 1 else NULL, Blank(0, 0))
      {
        table[i] := Node(if i == 1 then NULL else i - 1, if i + 1 < table.Length then i + 1 else NULL, Blank(0, 0));
        i := i + 1;
      }
      table[0] := Node(NULL, NULL, Blank(0, total));
    }

    // ---------- single writes ----------

    method PutNext(x: nat, y: int)
      requires x < table.Length
      modifies table
      ensures table[..] == SetNext(old(table[..]), x, y)
    {
      table[x] := table[x].(next := y);
    }

    method PutPrev(x: nat, y: int)
      requires x < table.Length
      modifies table
      ensures table[..] == SetPrev(old(table[..]), x, y)
    {
      table[x] := table[x].(prev := y);
    }

    /** Change the chunk fields of a live node. */
    method PutChunk(x: nat, c: Chunk, ghost i: nat)
      requires Valid() && i < |live| && x == live[i]
      modifies table, `cs
      ensures Valid() && table[..] == old(table[..])[x := old(table[x]).(chunk := c)]
      ensures cs == old(cs)[i := c]
      ensures old(Linked()) ==> Linked()
    {
      table[x] := table[x].(chunk := c);
      cs := cs[i := c];
      ChunkWrite(old(table[..]), table[..], live, x);
      ChunkWrite(old(table[..]), table[..], pool, x);
    }

    /** Change the `prev` of a live node. */
    method RepairPrev(x: nat, y: int, ghost i: nat)
      requires Valid() && i < |live| && x == live[i]
      modifies table
      ensures Valid() && table[..] == SetPrev(old(table[..]), x, y)
    {
      PrevWrite(table[..], live, pool, x, y);
      PutPrev(x, y);
    }

    // ---------- walking the list ----------

    /** diccionario_obtener. */
    method Lookup(k: string) returns (it: int, ghost i: nat)
      requires Valid()
      ensures Find(cs, k).None? ==> it == NULL
      ensures Find(cs, k).Some? ==> i == Find(cs, k).value && i < |live| && it == live[i]
    {
      it, i := elements, 0;
      while it != NULL
        invariant 0 <= i <= |live| && it == At(live, i)
        invariant forall j :: 0 <= j < i ==> !cs[j].Named(k)
        decreases |live| - i
      {
        var c := table[it].chunk;
        assert NextOk(table[..], live, i) && c == cs[i];
        if c.nkey != 0 {
          if c.nkey == |k| && c.nkey <= |c.key| && c.key[..c.nkey] == k {
            return;
          }
        }
        it, i := table[it].next, i + 1;
      }
    }

    /** diccionario_elegirVictima. */
    method ChooseVictim() returns (victim: int, ghost v: nat)
      requires Valid()
      ensures Victim(cs).None? ==> victim == NULL
      ensures Victim(cs).Some? ==> v == Victim(cs).value && v < |live| && victim == live[v]
    {
      victim, v := elements, 0;
      while victim != NULL && table[victim].chunk.hour == 0
        invariant 0 <= v <= |live| && victim == At(live, v)
        invariant forall j :: 0 <= j < v ==> cs[j].hour == 0
        decreases |live| - v
      {
        assert NextOk(table[..], live, v) && table[victim].chunk == cs[v];
        victim, v := table[victim].next, v + 1;
      }
      var item := victim;
      ghost var i: nat := v;
      while item != NULL
        invariant i <= |live| && item == At(live, i)
        invariant victim == NULL ==> forall j :: 0 <= j < |live| ==> cs[j].hour == 0
        invariant victim == NULL ==> item == NULL
        invariant victim != NULL ==> v < |live| && victim == live[v] && cs[v].hour != 0
        invariant victim != NULL ==> forall j :: 0 <= j < i && cs[j].hour != 0 ==> cs[v].hour <= cs[j].hour
        invariant victim != NULL ==> forall j :: 0 <= j < v && cs[j].hour != 0 ==> cs[v].hour < cs[j].hour
        decreases |live| - i
      {
        assert NextOk(table[..], live, i) && table[item].chunk == cs[i] && table[victim].chunk == cs[v];
        if table[item].chunk.hour != 0 && table[item].chunk.hour < table[victim].chunk.hour {
          victim, v := item, i;
        }
        item, i := table[item].next, i + 1;
      }
      if victim != NULL {
        VictimUnique(cs, v);
      }
    }

    /** The search at the head of both allocation loops, and the best-fit pass that follows it. */
    method Search(need: nat) returns (item: int, ghost i: nat)
      requires Valid()
      ensures Choose(cs, need, best).None? ==> item == NULL
      ensures Choose(cs, need, best).Some? ==> i == Choose(cs, need, best).value && i < |live| && item == live[i]
    {
      item, i := elements, 0;
      while item != NULL && !table[item].chunk.Fits(need)
        invariant 0 <= i <= |live| && item == At(live, i)
        invariant forall j :: 0 <= j < i ==> !cs[j].Fits(need)
        decreases |live| - i
      {
        assert NextOk(table[..], live, i) && table[item].chunk == cs[i];
        item, i := table[item].next, i + 1;
      }
      if item == NULL {
        return;
      }
      assert table[item].chunk == cs[i];
      if best {
        var aux := item;
        ghost var a: nat := i;
        while aux != NULL
          invariant a <= |live| && aux == At(live, a)
          invariant i < |live| && item == live[i] && cs[i].Fits(need)
          invariant forall j :: 0 <= j < a && cs[j].Fits(need) ==> cs[i].size <= cs[j].size
          invariant forall j :: 0 <= j < i && cs[j].Fits(need) ==> cs[i].size < cs[j].size
          decreases |live| - a
        {
          var c := table[aux].chunk;
          assert NextOk(table[..], live, a) && c == cs[a] && table[item].chunk == cs[i];
          if c.Fits(need) && c.size < table[item].chunk.size {
            item, i := aux, a;
          }
          aux, a := table[aux].next, a + 1;
        }
      }
      ChooseUnique(cs, need, best, i);
    }

    // ---------- moving nodes between the list and the pool ----------

    /** Move the first node of the pool into the live list, after item. */
    method InsertSpare(item: nat, ghost i: nat) returns (n: nat)
      requires Valid() && i < |live| && item == live[i] && |pool| > 0
      modifies this`live, this`cs, this`nodes, this`pool, table
      ensures Valid() && n < table.Length && n == old(pool[0]) && pool == old(pool)[1..]
      ensures live == Inserted(old(live), i + 1, n)
      ensures cs == Inserted(old(cs), i + 1, table[n].chunk) && Spare(table[n])
      ensures table[n].prev == item && (i + 1 < |old(live)| ==> table[old(live)[i + 1]].prev == n)
      ensures forall j :: 0 <= j < |old(live)| && j != i + 1 ==>
                table[old(live)[j]].prev == old(table[..])[old(live)[j]].prev
    {
      n := nodes;
      ghost var t0 := table[..];
      MoveInKeeps(t0, live, pool, elements, n, i, cs);
      MoveInBacks(t0, live, pool, elements, n, i, cs);
      assert NextOk(t0, pool, 0);
      if table[n].next != NULL {
        PutPrev(table[n].next, NULL);
      }
      assert table[..] == Popped(t0, n);
      nodes := table[n].next;
      LinkIn(item, n);
      pool := pool[1..];
      cs := Inserted(cs, i + 1, table[n].chunk);
      live := Inserted(live, i + 1, n);
    }

    /** Unlink a live node that no longer covers any memory and put it at the head of the pool. */
    method RetireNode(n: nat, ghost k: nat)
      requires Valid() && k < |live| && n == live[k] && |live| > 1
      requires BackOk(table[..], live, k) && Spare(table[n])
      modifies this`elements, this`live, this`cs, this`nodes, this`pool, table
      ensures Valid() && live == Removed(old(live), k) && pool == [n] + old(pool)
      ensures cs == Removed(old(cs), k)
      ensures k + 1 < |old(live)| ==> table[old(live)[k + 1]].prev == old(table[..])[n].prev
      ensures forall j :: 0 <= j < |old(live)| && j != k && j != k + 1 ==>
                table[old(live)[j]].prev == old(table[..])[old(live)[j]].prev
    {
      ghost var t0 := table[..];
      assert NextOk(t0, live, k);
      MoveOutKeeps(t0, live, pool, elements, nodes, k, cs);
      if table[n].prev != NULL {
        PutNext(table[n].prev, table[n].next);
      } else {
        elements := table[n].next;
      }
      if table[n].next != NULL {
        PutPrev(table[n].next, table[n].prev);
      }
      assert table[..] == Unlinked(t0, n);
      PushSpare(n);
      pool := [n] + pool;
      cs := Removed(cs, k);
      live := Removed(live, k);
    }

    /**
      Detach the node after item and put it at the head of the pool, without repairing the
      `prev` of the node that followed: the forward loop of diccionario_eliminar.
      */
    method DetachNext(item: nat, n: nat, ghost k: nat)
      requires Valid() && k + 1 < |live| && item == live[k] && n == live[k + 1] && Spare(table[n])
      modifies this`live, this`cs, this`nodes, this`pool, table
      ensures Valid() && live == Removed(old(live), k + 1) && pool == [n] + old(pool)
      ensures cs == Removed(old(cs), k + 1)
      ensures forall j :: 0 <= j < |old(live)| && j != k + 1 ==>
                table[old(live)[j]].prev == old(table[..])[old(live)[j]].prev
    {
      ghost var t0 := table[..];
      assert NextOk(t0, live, k) && NextOk(t0, live, k + 1);
      DetachKeeps(t0, live, pool, elements, nodes, k, cs);
      PutNext(item, table[n].next);
      PushSpare(n);
      pool := [n] + pool;
      cs := Removed(cs, k + 1);
      live := Removed(live, k + 1);
    }

    method PushSpare(n: nat)
      requires n < table.Length && NULL <= nodes < table.Length
      modifies `nodes, table
      ensures table[..] == Pushed(old(table[..]), n, old(nodes)) && nodes == n
    {
      PutPrev(n, NULL);
      PutNext(n, nodes);
      if nodes != NULL {
        PutPrev(nodes, n);
      }
      nodes := n;
    }

    method LinkIn(item: nat, n: nat)
      requires item < table.Length && n < table.Length && NULL <= table[item].next < table.Length
      modifies table
      ensures table[..] == LinkedAfter(old(table[..]), item, n)
    {
      if table[item].next != NULL {
        PutPrev(table[item].next, n);
      }
      PutNext(n, table[item].next);
      PutPrev(n, item);
      PutNext(item, n);
    }
  }

  lemma SpareLinked(t: seq<Node>, spare: Order)
    requires |spare| == |t| - 1 && forall j :: 0 <= j < |spare| ==> spare[j] == j + 1
    requires forall j :: 1 <= j < |t| ==> t[j].next == if j + 1 < |t| then j + 1 else NULL
    requires forall j :: 2 <= j < |t| ==> t[j].prev == j - 1
    ensures NextLinked(t, spare, if |t| > 1 then 1 else NULL) && PoolBack(t, spare)
  {
    forall j | 0 <= j < |spare| ensures NextOk(t, spare, j) { }
    forall j | 0 < j < |spare| ensures BackOk(t, spare, j) { }
  }

  /** The pool's first node moves into the live list. */
  lemma MoveInKeeps(t: seq<Node>, s: Order, p: Order, head: int, n: nat, i: nat, cs: seq<Chunk>)
    requires Threaded(t, s, p, head, n, cs) && |p| > 0 && i < |s|
    ensures n == p[0] && NULL <= Popped(t, n)[s[i]].next < |t|
    ensures var u := LinkedAfter(Popped(t, n), s[i], n);
            && |u| == |t|
            && Threaded(u, Inserted(s, i + 1, n), p[1..], head, t[n].next, Inserted(cs, i + 1, u[n].chunk))
            && u[n].chunk == t[n].chunk && Spare(u[n])
  {
    PopStage(t, s, p, head, n, cs);
    var v := Popped(t, n);
    assert NextOk(v, s, i);
    LinkKeeps(v, s, head, i, n);
    var u := LinkedAfter(v, s[i], n);
    InsertedShows(u, s, cs, i + 1, n);
    PoolUntouched(v, u, s, p[1..], t[n].next, n);
    ApartInserted(s, p[1..], i + 1, n);
  }

  /** What the move does to the `prev` links of the list. */
  lemma MoveInBacks(t: seq<Node>, s: Order, p: Order, head: int, n: nat, i: nat, cs: seq<Chunk>)
    requires Threaded(t, s, p, head, n, cs) && |p| > 0 && i < |s|
    ensures var u := LinkedAfter(Popped(t, n), s[i], n);
            && |u| == |t| && n < |t| && u[n].prev == s[i] && (i + 1 < |s| ==> u[s[i + 1]].prev == n)
            && forall j :: 0 <= j < |s| && j != i + 1 ==> u[s[j]].prev == t[s[j]].prev
  {
    PopStage(t, s, p, head, n, cs);
    LinkKeeps(Popped(t, n), s, head, i, n);
  }

  lemma ApartInserted(s: Order, q: Order, k: nat, n: nat)
    requires k <= |s| && Apart(s, q) && Apart([n], q)
    ensures Apart(Inserted(s, k, n), q)
  {
    var r := Inserted(s, k, n);
    forall i, j | 0 <= i < |r| && 0 <= j < |q| ensures r[i] != q[j] {
      assert q[j] != [n][0];
      assert r[i] == if i < k then s[i] else if i == k then n else s[i - 1];
    }
  }

  lemma PopStage(t: seq<Node>, s: Order, p: Order, head: int, n: nat, cs: seq<Chunk>)
    requires Threaded(t, s, p, head, n, cs) && |p| > 0
    ensures n == p[0] && n !in s
    ensures var v := Popped(t, n);
            && |v| == |t| && NextLinked(v, s, head) && NextLinked(v, p[1..], t[n].next)
            && Shows(v, s, cs) && AllSpare(v, p[1..]) && v[n].chunk == t[n].chunk && Spare(v[n])
            && Apart(s, p[1..]) && Apart([n], p[1..]) && PoolBack(v, p[1..])
            && forall j :: 0 <= j < |s| ==> v[s[j]] == t[s[j]]
  {
    PopKeeps(t, s, p, n);
    PopBack(t, p, n);
    var v := Popped(t, n);
    forall j | 0 <= j < |s| ensures NextOk(v, s, j) && s[j] != n {
      assert NextOk(t, s, j);
      assert s[j] != p[0];
    }
    forall j | 0 <= j < |p[1..]| ensures Spare(v[p[1..][j]]) {
      assert Spare(t[p[j + 1]]);
    }
    assert Spare(t[p[0]]);
  }

  /** A live node without memory moves to the pool. */
  lemma MoveOutKeeps(t: seq<Node>, s: Order, p: Order, head: int, spares: int, k: nat, cs: seq<Chunk>)
    requires Threaded(t, s, p, head, spares, cs) && k < |s| && |s| > 1
    requires BackOk(t, s, k) && Spare(t[s[k]])
    ensures NULL <= t[s[k]].prev < |t| && NULL <= t[s[k]].next < |t| && NULL <= spares < |t|
    ensures var u := Pushed(Unlinked(t, s[k]), s[k], spares);
            && |u| == |t|
            && Threaded(u, Removed(s, k), [s[k]] + p, if k == 0 then t[s[k]].next else head, s[k], Removed(cs, k))
            && (k + 1 < |s| ==> u[s[k + 1]].prev == t[s[k]].prev)
            && forall j :: 0 <= j < |s| && j != k && j != k + 1 ==> u[s[j]].prev == t[s[j]].prev
  {
    var n := s[k];
    assert NextOk(t, s, k);
    var v := Unlinked(t, n);
    UnlinkKeeps(t, s, head, k);
    assert forall j :: 0 <= j < |p| ==> p[j] !in s by {
      forall j | 0 <= j < |p| ensures p[j] !in s { }
    }
    assert NextLinked(v, p, spares) && PoolBack(v, p) by {
      forall j | 0 <= j < |p| ensures NextOk(v, p, j) && (j > 0 ==> BackOk(v, p, j)) {
        assert NextOk(t, p, j) && (j > 0 ==> BackOk(t, p, j));
      }
    }
    PushKeeps(v, p, spares, n);
    PushStage(t, v, s, p, if k == 0 then t[n].next else head, spares, k, cs);
  }

  lemma DetachKeeps(t: seq<Node>, s: Order, p: Order, head: int, spares: int, k: nat, cs: seq<Chunk>)
    requires Threaded(t, s, p, head, spares, cs) && k + 1 < |s| && Spare(t[s[k + 1]])
    ensures NULL <= spares < |t|
    ensures var u := Pushed(SetNext(t, s[k], t[s[k + 1]].next), s[k + 1], spares);
            && |u| == |t|
            && Threaded(u, Removed(s, k + 1), [s[k + 1]] + p, head, s[k + 1], Removed(cs, k + 1))
            && forall j :: 0 <= j < |s| && j != k + 1 ==> u[s[j]].prev == t[s[j]].prev
  {
    DetachLinks(t, s, p, head, spares, k);
    PushStage(t, SetNext(t, s[k], t[s[k + 1]].next), s, p, head, spares, k + 1, cs);
  }

  lemma DetachLinks(t: seq<Node>, s: Order, p: Order, head: int, spares: int, k: nat)
    requires NextLinked(t, s, head) && NextLinked(t, p, spares) && Apart(s, p) && k + 1 < |s| && PoolBack(t, p)
    ensures var v := SetNext(t, s[k], t[s[k + 1]].next);
            NextLinked(v, Removed(s, k + 1), head) && NextLinked(v, p, spares) && PoolBack(v, p)
  {
    var v := SetNext(t, s[k], t[s[k + 1]].next);
    var r := Removed(s, k + 1);
    assert NextOk(t, s, k + 1);
    forall j | 0 <= j < |r| ensures r[j] < |v| && NextOk(v, r, j) {
      assert NextOk(t, s, if j <= k then j else j + 1);
    }
    forall j | 0 <= j < |p| ensures NextOk(v, p, j) && (j > 0 ==> BackOk(v, p, j)) {
      assert NextOk(t, p, j) && s[k] != p[j] && (j > 0 ==> BackOk(t, p, j));
    }
  }

  lemma PushStage(t: seq<Node>, v: seq<Node>, s: Order, p: Order, head: int, spares: int, k: nat, cs: seq<Chunk>)
    requires |v| == |t| && k < |s| && Positions(t, s) && NextLinked(v, Removed(s, k), head)
    requires NextLinked(v, p, spares) && Apart(s, p) && Spare(t[s[k]]) && Shows(t, s, cs) && AllSpare(t, p)
    requires PoolBack(v, p)
    requires forall x :: 0 <= x < |t| ==> v[x].chunk == t[x].chunk
    ensures var u := Pushed(v, s[k], spares);
            && NextLinked(u, Removed(s, k), head) && Shows(u, Removed(s, k), Removed(cs, k))
            && |u| == |t| && NextLinked(u, [s[k]] + p, s[k])
            && AllSpare(u, [s[k]] + p) && Apart(Removed(s, k), [s[k]] + p) && PoolBack(u, [s[k]] + p)
            && forall j :: 0 <= j < |s| && j != k ==> u[s[j]] == v[s[j]]
  {
    var n := s[k];
    var r := Removed(s, k);
    forall j | 0 <= j < |p| ensures p[j] != n { assert s[k] != p[j]; }
    PushKeeps(v, p, spares, n);
    PushBack(v, p, spares, n);
    var u := Pushed(v, n, spares);
    forall j | 0 <= j < |s| && j != k ensures s[j] !in p && u[s[j]] == v[s[j]] { }
    forall j | 0 <= j < |r| ensures NextOk(u, r, j) && r[j] != n && r[j] !in p && u[r[j]].chunk == Removed(cs, k)[j] {
      assert NextOk(v, r, j);
      assert r[j] == s[if j < k then j else j + 1];
    }
    forall j | 0 <= j < |p| ensures Spare(u[p[j]]) { assert Spare(t[p[j]]); }
  }

  lemma PoolUntouched(v: seq<Node>, u: seq<Node>, s: Order, q: Order, head: int, n: nat)
    requires |u| == |v| && NextLinked(v, q, head) && AllSpare(v, q) && PoolBack(v, q) && Apart(s, q) && Apart([n], q)
    requires forall x :: 0 <= x < |v| && x !in s && x != n ==> u[x] == v[x]
    ensures NextLinked(u, q, head) && AllSpare(u, q) && PoolBack(u, q)
  {
    forall j | 0 <= j < |q| ensures NextOk(u, q, j) && Spare(u[q[j]]) && (j > 0 ==> BackOk(u, q, j)) {
      assert NextOk(v, q, j) && Spare(v[q[j]]) && (j > 0 ==> BackOk(v, q, j));
      assert q[j] != [n][0];
    }
  }

  lemma PrevWrite(t: seq<Node>, s: Order, p: Order, x: nat, y: int)
    requires Positions(t, s) && Positions(t, p) && Apart(s, p) && x in s
    ensures var u := SetPrev(t, x, y);
            && (forall head :: NextLinked(t, s, head) ==> NextLinked(u, s, head))
            && (forall head :: NextLinked(t, p, head) ==> NextLinked(u, p, head))
            && (PoolBack(t, p) ==> PoolBack(u, p))
  {
    var u := SetPrev(t, x, y);
    var i :| 0 <= i < |s| && s[i] == x;
    forall j | 0 <= j < |s| ensures NextOk(t, s, j) <==> NextOk(u, s, j) { }
    forall j | 0 <= j < |p| ensures (NextOk(t, p, j) <==> NextOk(u, p, j)) && (BackOk(t, p, j) <==> BackOk(u, p, j)) {
      assert s[i] != p[j];
    }
  }

  lemma ChunkWrite(t: seq<Node>, u: seq<Node>, s: Order, x: nat)
    requires Positions(t, s) && x < |t| && |u| == |t| && u == t[x := t[x].(chunk := u[x].chunk)]
    ensures forall head :: NextLinked(t, s, head) ==> NextLinked(u, s, head)
    ensures BackLinked(t, s) ==> BackLinked(u, s)
    ensures PoolBack(t, s) ==> PoolBack(u, s)
  {
    forall i | 0 <= i < |s|
      ensures (NextOk(t, s, i) <==> NextOk(u, s, i)) && (BackOk(t, s, i) <==> BackOk(u, s, i))
    {
    }
  }
}
