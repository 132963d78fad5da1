/** networking.c: the replies of a client, first in a static buffer and then in a list,
    sent by writes of any length. */
module OutputQueue {
  import opened Sequences
  import opened Wrappers
  import opened Bytes
  import opened Decimal
  import opened Resp

  const REDIS_REPLY_CHUNK_BYTES := 16 * 1024
  const REDIS_MAX_WRITE_PER_EVENT := 64 * 1024

  /** A node of the reply list; without a value it waits for a deferred length. The id
      stands for the node's address. */
  datatype Node = Node(id: nat, val: Option<bytes>)

  /** A byte of the reply stream, or the place of a length not yet known. */
  datatype Cell = B(b: byte) | Hole(id: nat)
  type Cells = seq<Cell>

  function Plain(s: bytes): (c: Cells)
    ensures |c| == |s| && forall i :: 0 <= i < |s| ==> c[i] == B(s[i])
  {
    seq(|s|, i requires 0 <= i < |s| => B(s[i]))
  }

  function NodeCells(n: Node): Cells { if n.val.Some? then Plain(n.val.value) else [Hole(n.id)] }

  function ListCells(list: seq<Node>): Cells {
    if list == [] then [] else NodeCells(list[0]) + ListCells(list[1..])
  }

  /** The stream once the length behind a hole is known. */
  function Fill(c: Cells, id: nat, s: bytes): Cells {
    if c == [] then [] else (if c[0] == Hole(id) then Plain(s) else [c[0]]) + Fill(c[1..], id, s)
  }

  ghost predicate NoHole(c: Cells, id: nat) { forall i :: 0 <= i < |c| ==> c[i] != Hole(id) }

  // ---- laws of the stream

  lemma PlainConcat(s: bytes, t: bytes)
    ensures Plain(s + t) == Plain(s) + Plain(t)
  {}

  lemma {:induction false} ListConcat(a: seq<Node>, b: seq<Node>)
    ensures ListCells(a + b) == ListCells(a) + ListCells(b)
  {
    if a == [] {
      assert a + b == b;
    } else {
      assert (a + b)[1..] == a[1..] + b;
      ListConcat(a[1..], b);
      Assoc(NodeCells(a[0]), ListCells(a[1..]), ListCells(b));
    }
  }

  lemma ListOne(n: Node)
    ensures ListCells([n]) == NodeCells(n)
  {
    assert [n][1..] == [];
    assert ListCells([n]) == NodeCells(n) + [];
  }

  lemma {:induction false} FillConcat(a: Cells, b: Cells, id: nat, s: bytes)
    ensures Fill(a + b, id, s) == Fill(a, id, s) + Fill(b, id, s)
  {
    if a == [] {
      assert a + b == b;
    } else {
      assert (a + b)[1..] == a[1..] + b;
      FillConcat(a[1..], b, id, s);
      Assoc(if a[0] == Hole(id) then Plain(s) else [a[0]], Fill(a[1..], id, s), Fill(b, id, s));
    }
  }

  lemma {:induction false} FillNothing(c: Cells, id: nat, s: bytes)
    requires NoHole(c, id)
    ensures Fill(c, id, s) == c
  {
    if c != [] {
      assert forall i :: 0 <= i < |c| - 1 ==> c[1..][i] == c[i + 1];
      FillNothing(c[1..], id, s);
      assert c == [c[0]] + c[1..];
    }
  }

  lemma FillHole(id: nat, s: bytes)
    ensures Fill([Hole(id)], id, s) == Plain(s)
  {
    assert [Hole(id)][1..] == [];
    assert Fill([Hole(id)], id, s) == Plain(s) + [];
  }

  lemma {:induction false} OtherNodes(list: seq<Node>, id: nat)
    requires forall k :: 0 <= k < |list| ==> list[k].id != id
    ensures NoHole(ListCells(list), id)
  {
    if list != [] {
      assert forall k :: 0 <= k < |list| - 1 ==> list[1..][k] == list[k + 1];
      OtherNodes(list[1..], id);
    }
  }

  // ---- the queue

  /** What is still to be sent: the rest of the buffer, or else of the first node, and the list. */
  function Unsent(buf: bytes, list: seq<Node>, sentlen: nat): Cells
    requires sentlen <= |Plain(buf) + ListCells(list)|
  {
    (Plain(buf) + ListCells(list))[sentlen..]
  }

  ghost predicate Ordered(list: seq<Node>, nextId: nat) {
    && (forall i, j :: 0 <= i < j < |list| ==> list[i].id < list[j].id)
    && (forall i :: 0 <= i < |list| ==> list[i].id < nextId)
  }

  /** How much of the buffer, or else of the first node, was sent. */
  ghost predicate Partial(buf: bytes, list: seq<Node>, sentlen: nat) {
    if buf != [] then sentlen < |buf|
    else if list == [] then sentlen == 0
    else if list[0].val == None then sentlen == 0
    else sentlen == 0 || sentlen < |list[0].val.value|
  }

  lemma PartialFits(buf: bytes, list: seq<Node>, sentlen: nat)
    requires Partial(buf, list, sentlen)
    ensures sentlen <= |Plain(buf) + ListCells(list)|
  {}

  /** Everything accepted is what was sent and what is still to be sent, in order. */
  ghost predicate Conserved(accepted: Cells, sent: bytes, buf: bytes, list: seq<Node>, sentlen: nat) {
    sentlen <= |Plain(buf) + ListCells(list)| && accepted == Plain(sent) + Unsent(buf, list, sentlen)
  }

  lemma TailGrows(c: Cells, more: Cells, k: nat)
    requires k <= |c|
    ensures (c + more)[k..] == c[k..] + more
  {}

  lemma BufferGrows(accepted: Cells, sent: bytes, buf: bytes, sentlen: nat, s: bytes)
    requires Conserved(accepted, sent, buf, [], sentlen)
    ensures Conserved(accepted + Plain(s), sent, buf + s, [], sentlen)
  {
    assert ListCells([]) == [];
    assert Plain(buf) + [] == Plain(buf) && Plain(buf + s) + [] == Plain(buf + s);
    PlainConcat(buf, s);
    TailGrows(Plain(buf), Plain(s), sentlen);
    Assoc(Plain(sent), Plain(buf)[sentlen..], Plain(s));
  }

  lemma ListGrows(accepted: Cells, sent: bytes, buf: bytes, list: seq<Node>, sentlen: nat, list': seq<Node>, more: Cells)
    requires Conserved(accepted, sent, buf, list, sentlen) && ListCells(list') == ListCells(list) + more
    ensures Conserved(accepted + more, sent, buf, list', sentlen)
  {
    var c := Plain(buf) + ListCells(list);
    Assoc(Plain(buf), ListCells(list), more);
    TailGrows(c, more, sentlen);
    Assoc(Plain(sent), c[sentlen..], more);
  }

  /** Appending to the last node, when it has a value. */
  lemma Glued(list: seq<Node>, s: bytes)
    requires list != [] && list[|list| - 1].val.Some?
    ensures var k := |list| - 1;
      ListCells(list[k := Node(list[k].id, Some(list[k].val.value + s))]) == ListCells(list) + Plain(s)
  {
    var k := |list| - 1;
    var n, n' := list[k], Node(list[k].id, Some(list[k].val.value + s));
    assert list == list[..k] + [n] && list[k := n'] == list[..k] + [n'];
    ListConcat(list[..k], [n]);
    ListConcat(list[..k], [n']);
    ListOne(n);
    ListOne(n');
    PlainConcat(n.val.value, s);
    Assoc(ListCells(list[..k]), Plain(n.val.value), Plain(s));
  }

  lemma Added(list: seq<Node>, n: Node)
    ensures ListCells(list + [n]) == ListCells(list) + NodeCells(n)
  {
    ListConcat(list, [n]);
    ListOne(n);
  }

  /** `n` more bytes of what is in front were written. */
  lemma FrontWritten(front: bytes, rest: Cells, sentlen: nat, n: nat)
    requires sentlen + n <= |front|
    ensures (Plain(front) + rest)[sentlen..] == Plain(front[sentlen..sentlen + n]) + (Plain(front) + rest)[sentlen + n..]
    ensures (Plain(front) + rest)[|front|..] == rest
  {}

  lemma BufferWritten(accepted: Cells, sent: bytes, buf: bytes, list: seq<Node>, sentlen: nat, n: nat, sent': bytes)
    requires Conserved(accepted, sent, buf, list, sentlen) && sentlen + n <= |buf|
    requires sent' == sent + buf[sentlen..sentlen + n]
    ensures if sentlen + n == |buf| then Conserved(accepted, sent', [], list, 0) else Conserved(accepted, sent', buf, list, sentlen + n)
    ensures |sent'| == |sent| + n && sent <= sent'
  {
    var x := buf[sentlen..sentlen + n];
    var c := Plain(buf) + ListCells(list);
    FrontWritten(buf, ListCells(list), sentlen, n);
    PlainConcat(sent, x);
    Assoc(Plain(sent), Plain(x), c[sentlen + n..]);
    assert Plain([]) + ListCells(list) == ListCells(list);
  }

  lemma HeadWritten(accepted: Cells, sent: bytes, list: seq<Node>, sentlen: nat, n: nat, sent': bytes)
    requires Conserved(accepted, sent, [], list, sentlen) && list != [] && list[0].val.Some? && sentlen + n <= |list[0].val.value|
    requires sent' == sent + list[0].val.value[sentlen..sentlen + n]
    ensures |sent'| == |sent| + n && sent <= sent'
    ensures var s := list[0].val.value;
      if sentlen + n == |s| then Conserved(accepted, sent', [], list[1..], 0) else Conserved(accepted, sent', [], list, sentlen + n)
  {
    var s := list[0].val.value;
    var x := s[sentlen..sentlen + n];
    var c := ListCells(list);
    assert Plain([]) + c == c && Plain([]) + ListCells(list[1..]) == ListCells(list[1..]);
    FrontWritten(s, ListCells(list[1..]), sentlen, n);
    PlainConcat(sent, x);
    Assoc(Plain(sent), Plain(x), c[sentlen + n..]);
  }

  // ---- filling in a deferred length

  /** Node `k` gets its value, and the next node is glued to it when that has one. */
  function Filled(list: seq<Node>, k: nat, text: bytes): seq<Node>
    requires k < |list|
  {
    if k + 1 < |list| && list[k + 1].val.Some?
    then list[..k] + [Node(list[k].id, Some(text + list[k + 1].val.value))] + list[k + 2..]
    else list[k := Node(list[k].id, Some(text))]
  }

  lemma ListSplit(list: seq<Node>, k: nat)
    requires k < |list|
    ensures list == list[..k] + ([list[k]] + list[k + 1..])
  {}

  lemma ListParts(list: seq<Node>, k: nat)
    requires k < |list|
    ensures ListCells(list) == ListCells(list[..k]) + (NodeCells(list[k]) + ListCells(list[k + 1..]))
  {
    hide *;
    ListSplit(list, k);
    ListConcat(list[..k], [list[k]] + list[k + 1..]);
    ListConcat([list[k]], list[k + 1..]);
    ListOne(list[k]);
  }

  /** The cells of a list with a value put in place of the node `k`. */
  lemma FilledCells(list: seq<Node>, k: nat, text: bytes)
    requires k < |list|
    ensures ListCells(Filled(list, k, text)) == ListCells(list[..k]) + (Plain(text) + ListCells(list[k + 1..]))
  {
    FilledSlices(list, k, text);
    var list' := Filled(list, k, text);
    var glued := k + 1 < |list| && list[k + 1].val.Some?;
    hide *;
    ListParts(list', k);
    ValueCells(list'[k]);
    if glued {
      var t, rest := list[k + 1].val.value, list[k + 2..];
      PlainConcat(text, t);
      Assoc(Plain(text), Plain(t), ListCells(rest));
      HeadCells(list[k + 1..]);
      ValueCells(list[k + 1]);
    }
  }

  lemma HeadCells(list: seq<Node>)
    requires list != []
    ensures ListCells(list) == NodeCells(list[0]) + ListCells(list[1..])
  {}

  lemma ValueCells(n: Node)
    ensures n.val.Some? ==> NodeCells(n) == Plain(n.val.value)
  {}

  lemma FilledSlices(list: seq<Node>, k: nat, text: bytes)
    requires k < |list|
    ensures var list' := Filled(list, k, text);
      && k < |list'| && list'[..k] == list[..k]
      && if k + 1 < |list| && list[k + 1].val.Some?
         then list'[k].val == Some(text + list[k + 1].val.value) && list'[k + 1..] == list[k + 2..] && list[k + 1..][1..] == list[k + 2..]
         else list'[k].val == Some(text) && list'[k + 1..] == list[k + 1..]
  {}

  lemma FilledIsFill(list: seq<Node>, k: nat, text: bytes, nextId: nat)
    requires k < |list| && Ordered(list, nextId) && list[k].val == None
    ensures ListCells(Filled(list, k, text)) == Fill(ListCells(list), list[k].id, text)
  {
    var id := list[k].id;
    var a, b := ListCells(list[..k]), ListCells(list[k + 1..]);
    ListParts(list, k);
    FilledCells(list, k, text);
    OtherNodes(list[..k], id);
    OtherNodes(list[k + 1..], id);
    hide ListCells, Plain, Filled, Ordered;
    FillConcat(a, [Hole(id)] + b, id, text);
    FillConcat([Hole(id)], b, id, text);
    FillHole(id, text);
    FillNothing(a, id, text);
    FillNothing(b, id, text);
  }

  lemma FilledOrdered(list: seq<Node>, k: nat, text: bytes, nextId: nat)
    requires k < |list| && Ordered(list, nextId)
    ensures Ordered(Filled(list, k, text), nextId)
  {
    var list' := Filled(list, k, text);
    forall i | 0 <= i < |list'| ensures list'[i].id == list[if i <= k || |list'| == |list| then i else i + 1].id {}
  }

  /** Nothing sent, or being sent, is a hole. */
  lemma SentPlain(buf: bytes, list: seq<Node>, sentlen: nat, id: nat)
    requires Partial(buf, list, sentlen)
    ensures sentlen <= |Plain(buf) + ListCells(list)| && NoHole((Plain(buf) + ListCells(list))[..sentlen], id)
  {}

  lemma PlainNoHole(s: bytes, id: nat)
    ensures NoHole(Plain(s), id)
  {}

  lemma FillUnsent(buf: bytes, list: seq<Node>, sentlen: nat, list': seq<Node>, id: nat, text: bytes)
    requires Partial(buf, list, sentlen) && Partial(buf, list', sentlen)
    requires ListCells(list') == Fill(ListCells(list), id, text)
    ensures sentlen <= |Plain(buf) + ListCells(list)| && sentlen <= |Plain(buf) + ListCells(list')|
    ensures Unsent(buf, list', sentlen) == Fill(Unsent(buf, list, sentlen), id, text)
  {
    hide *;
    var c := Plain(buf) + ListCells(list);
    SentPlain(buf, list, sentlen, id);
    PartialFits(buf, list', sentlen);
    PlainNoHole(buf, id);
    FillConcat(Plain(buf), ListCells(list), id, text);
    FillNothing(Plain(buf), id, text);
    Split(c, sentlen);
    FillConcat(c[..sentlen], c[sentlen..], id, text);
    FillNothing(c[..sentlen], id, text);
    TailOf(c[..sentlen], Fill(c[sentlen..], id, text));
    UnsentIs(buf, list, sentlen);
    UnsentIs(buf, list', sentlen);
  }

  lemma Split(c: Cells, k: nat)
    requires k <= |c|
    ensures c == c[..k] + c[k..] && |c[..k]| == k
  {}

  lemma UnsentIs(buf: bytes, list: seq<Node>, sentlen: nat)
    requires sentlen <= |Plain(buf) + ListCells(list)|
    ensures Unsent(buf, list, sentlen) == (Plain(buf) + ListCells(list))[sentlen..]
  {}

  lemma FillKeeps(accepted: Cells, sent: bytes, buf: bytes, list: seq<Node>, sentlen: nat, list': seq<Node>, id: nat, text: bytes)
    requires Conserved(accepted, sent, buf, list, sentlen) && Partial(buf, list, sentlen) && Partial(buf, list', sentlen)
    requires ListCells(list') == Fill(ListCells(list), id, text)
    ensures Conserved(Fill(accepted, id, text), sent, buf, list', sentlen)
  {
    hide ListCells, Partial, Plain, NoHole, Unsent, Fill;
    FillUnsent(buf, list, sentlen, list', id, text);
    PlainNoHole(sent, id);
    FillConcat(Plain(sent), Unsent(buf, list, sentlen), id, text);
    FillNothing(Plain(sent), id, text);
  }

  lemma TailOf(a: Cells, b: Cells)
    ensures (a + b)[|a|..] == b
  {}

  lemma FilledPartial(buf: bytes, list: seq<Node>, k: nat, text: bytes, sentlen: nat)
    requires k < |list| && list[k].val == None && Partial(buf, list, sentlen)
    ensures Partial(buf, Filled(list, k, text), sentlen)
  {}

  lemma HoleCells(id: nat)
    ensures NodeCells(Node(id, None)) == [Hole(id)]
  {}

  lemma AddedShape(buf: bytes, list: seq<Node>, sentlen: nat, nextId: nat, val: Option<bytes>)
    requires Partial(buf, list, sentlen) && Ordered(list, nextId)
    ensures Partial(buf, list + [Node(nextId, val)], sentlen) && Ordered(list + [Node(nextId, val)], nextId + 1)
  {}

  lemma GluedShape(buf: bytes, list: seq<Node>, sentlen: nat, nextId: nat, s: bytes)
    requires Partial(buf, list, sentlen) && Ordered(list, nextId) && list != [] && list[|list| - 1].val.Some?
    ensures var k := |list| - 1;
      var list' := list[k := Node(list[k].id, Some(list[k].val.value + s))];
      Partial(buf, list', sentlen) && Ordered(list', nextId)
  {}

  /** Every deferred length is known: what commands see to before the event loop goes on. */
  ghost predicate AllKnown(list: seq<Node>) { forall k :: 0 <= k < |list| ==> list[k].val.Some? }

  lemma BufferPartial(buf: bytes, list: seq<Node>, sentlen: nat)
    requires Partial(buf, list, sentlen) && buf != []
    ensures sentlen < |buf|
  {}

  lemma HeadPartial(list: seq<Node>, sentlen: nat)
    requires list != [] && AllKnown(list)
    ensures list[0].val.Some?
    ensures Partial([], list, sentlen) ==> sentlen == 0 || sentlen < |list[0].val.value|
  {}

  lemma PartOfHead(list: seq<Node>, sentlen: nat)
    requires list != [] && list[0].val.Some? && sentlen < |list[0].val.value|
    ensures Partial([], list, sentlen)
  {}

  lemma RestKnown(list: seq<Node>, nextId: nat)
    requires list != [] && AllKnown(list) && Ordered(list, nextId)
    ensures AllKnown(list[1..]) && Ordered(list[1..], nextId)
  {}

  lemma FreshHead(buf: bytes, list: seq<Node>, sentlen: nat)
    requires if buf != [] then sentlen < |buf| else sentlen == 0
    ensures Partial(buf, list, sentlen)
  {}

  /** Why the loop of sendReplyToClient ended after `n` writes that took something, `total` bytes in
      all and `last` with the last one: the next one took nothing, or the queue is empty, or it
      was enough for one event. It did not go on after that, unless memory was short. */
  ghost predicate Stopped(w: nat -> int, memory: nat -> bool, n: nat, failed: bool, last: nat, total: int, master: bool, empty: bool) {
    && (!master ==> forall i :: 0 <= i < n ==> w(i) > 0) && n <= total && (n == 0 ==> total == 0)
    && (if failed then !empty && !master && w(n) <= 0 else empty || (total > REDIS_MAX_WRITE_PER_EVENT && !memory(n)))
    && (if failed then total <= REDIS_MAX_WRITE_PER_EVENT || memory(n)
        else n > 0 ==> total - last <= REDIS_MAX_WRITE_PER_EVENT || memory(n - 1))
  }

  lemma StoppedIs(w: nat -> int, memory: nat -> bool, n: nat, failed: bool, last: nat, total: int, master: bool, empty: bool)
    requires Stopped(w, memory, n, failed, last, total, master, empty)
    ensures failed ==> !empty && !master && w(n) <= 0
    ensures !failed ==> empty || total > REDIS_MAX_WRITE_PER_EVENT
  {}

  /** The loop goes on. */
  ghost predicate Going(w: nat -> int, memory: nat -> bool, n: nat, last: nat, total: int, master: bool) {
    && (!master ==> forall i :: 0 <= i < n ==> w(i) > 0) && n <= total && (n == 0 ==> total == 0)
    && (total <= REDIS_MAX_WRITE_PER_EVENT || memory(n))
    && (n > 0 ==> total - last <= REDIS_MAX_WRITE_PER_EVENT || memory(n - 1))
  }

  lemma GoingStart(w: nat -> int, memory: nat -> bool, master: bool)
    ensures Going(w, memory, 0, 0, 0, master)
  {}

  lemma GoingOn(w: nat -> int, memory: nat -> bool, n: nat, last: nat, total: int, master: bool, took: nat, empty: bool)
    requires Going(w, memory, n, last, total, master) && (master || w(n) > 0) && took > 0
    ensures if total + took > REDIS_MAX_WRITE_PER_EVENT && !memory(n + 1)
      then Stopped(w, memory, n + 1, false, took, total + took, master, empty)
      else Going(w, memory, n + 1, took, total + took, master)
  {}

  lemma GoneOn(w: nat -> int, memory: nat -> bool, n: nat, last: nat, total: int, master: bool)
    requires Going(w, memory, n, last, total, master)
    ensures !master && w(n) <= 0 ==> Stopped(w, memory, n, true, last, total, master, false)
    ensures Stopped(w, memory, n, false, last, total, master, true)
  {}

  /** The list with one more reply: glued to the last node if that has a value, and both fit a
      chunk; else in a node of its own. */
  function Extended(reply: seq<Node>, id: nat, s: bytes): seq<Node> {
    var k := |reply| - 1;
    if |reply| > 0 && reply[k].val.Some? && |reply[k].val.value| + |s| <= REDIS_REPLY_CHUNK_BYTES
    then reply[k := Node(reply[k].id, Some(reply[k].val.value + s))] else reply + [Node(id, Some(s))]
  }

  lemma ExtendedIs(reply: seq<Node>, id: nat, s: bytes)
    ensures var k := |reply| - 1;
      Extended(reply, id, s) ==
        if |reply| > 0 && reply[k].val.Some? && |reply[k].val.value| + |s| <= REDIS_REPLY_CHUNK_BYTES
        then reply[k := Node(reply[k].id, Some(reply[k].val.value + s))] else reply + [Node(id, Some(s))]
  {}

  class Client {
    const fdOk: bool
    const lua: bool
    const master: bool
    const online: bool
    const buf: array<byte>
    var bufpos: nat
    var sentlen: nat
    var reply: seq<Node>
    var closeAfterReply: bool
    var handler: bool
    var nextId: nat
    ghost var accepted: Cells
    ghost var sent: bytes

    ghost predicate Valid()
      reads this, buf
    {
      && buf.Length == REDIS_REPLY_CHUNK_BYTES && bufpos <= buf.Length
      && Partial(buf[..bufpos], reply, sentlen) && Ordered(reply, nextId)
      && Conserved(accepted, sent, buf[..bufpos], reply, sentlen)
      && (online && fdOk && !lua && !(bufpos == 0 && reply == []) ==> handler)
    }

    constructor (fdOk: bool, lua: bool, master: bool, online: bool)
      ensures Valid() && accepted == [] && sent == [] && fresh(buf) && Empty() && !closeAfterReply && !handler
      ensures this.fdOk == fdOk && this.lua == lua && this.master == master && this.online == online
    {
      this.fdOk, this.lua, this.master, this.online := fdOk, lua, master, online;
      buf := new byte[REDIS_REPLY_CHUNK_BYTES];
      bufpos, sentlen, reply, closeAfterReply, handler, nextId := 0, 0, [], false, false, 0;
      accepted, sent := [], [];
      new;
      assert buf[..0] == [] && Plain([]) + ListCells([]) == [] && Plain([]) + Unsent([], [], 0) == [];
    }

    lemma NoBytes()
      ensures buf[..0] == []
    {}

    lemma Open()
      requires Valid()
      ensures buf.Length == REDIS_REPLY_CHUNK_BYTES && bufpos <= buf.Length
      ensures Partial(buf[..bufpos], reply, sentlen) && Ordered(reply, nextId)
      ensures Conserved(accepted, sent, buf[..bufpos], reply, sentlen)
    {}

    lemma Close()
      requires buf.Length == REDIS_REPLY_CHUNK_BYTES && bufpos <= buf.Length
      requires Partial(buf[..bufpos], reply, sentlen) && Ordered(reply, nextId)
      requires Conserved(accepted, sent, buf[..bufpos], reply, sentlen)
      requires online && fdOk && !lua ==> handler
      ensures Valid()
    {}

    /** Nothing is queued. */
    predicate Empty() reads this { bufpos == 0 && reply == [] }

    /** prepareClientToWrite; `aeOk` says whether the write handler could be installed. */
    method PrepareClientToWrite(aeOk: bool) returns (ok: bool)
      requires Valid()
      modifies `handler
      ensures Valid() && (ok <==> lua || (fdOk && (!old(Empty()) || !online || aeOk)))
      ensures ok && online && fdOk && !lua ==> handler
    {
      if lua { return true; }
      if !fdOk { return false; }
      if bufpos == 0 && reply == [] && online {
        if !aeOk { return false; }
        handler := true;
      }
      ok := true;
    }

    /** _addReplyToBuffer */
    method AddToBuffer(s: bytes) returns (ok: bool)
      requires Valid() && (online && fdOk && !lua ==> handler)
      modifies `bufpos, `accepted, buf
      ensures Valid()
      ensures ok <==> closeAfterReply || (reply == [] && |s| <= buf.Length - old(bufpos))
      ensures accepted == if ok && !closeAfterReply then old(accepted) + Plain(s) else old(accepted)
    {
      var available := buf.Length - bufpos;
      if closeAfterReply { return true; }
      if |reply| > 0 { return false; }
      if |s| > available { return false; }
      BufferGrows(accepted, sent, buf[..bufpos], sentlen, s);
      ghost var before := buf[..bufpos];
      forall k | 0 <= k < |s| {
        buf[bufpos + k] := s[k];
      }
      assert buf[..bufpos + |s|] == before + s;
      bufpos := bufpos + |s|;
      accepted := accepted + Plain(s);
      hide Conserved;
      ok := true;
    }

    /** _addReplyStringToList and its two twins, which differ in who owns the string. */
    method AddToList(s: bytes)
      requires Valid() && (online && fdOk && !lua ==> handler)
      modifies `reply, `nextId, `accepted
      ensures Valid()
      ensures accepted == if closeAfterReply then old(accepted) else old(accepted) + Plain(s)
      ensures reply == if closeAfterReply then old(reply) else Extended(old(reply), old(nextId), s)
    {
      ExtendedIs(reply, nextId, s);
      hide *;
      if closeAfterReply { return; }
      Open();
      var k := |reply| - 1;
      ghost var b := buf[..bufpos];
      if |reply| > 0 && reply[k].val.Some? && |reply[k].val.value| + |s| <= REDIS_REPLY_CHUNK_BYTES {
        Glued(reply, s);
        GluedShape(b, reply, sentlen, nextId, s);
        ListGrows(accepted, sent, b, reply, sentlen, reply[k := Node(reply[k].id, Some(reply[k].val.value + s))], Plain(s));
        reply := reply[k := Node(reply[k].id, Some(reply[k].val.value + s))];
        accepted := accepted + Plain(s);
      } else {
        ValueCells(Node(nextId, Some(s)));
        AddNode(Some(s), Plain(s));
      }
      Close();
    }

    method AddNode(val: Option<bytes>, ghost cells: Cells)
      requires buf.Length == REDIS_REPLY_CHUNK_BYTES && bufpos <= buf.Length
      requires Partial(buf[..bufpos], reply, sentlen) && Ordered(reply, nextId)
      requires Conserved(accepted, sent, buf[..bufpos], reply, sentlen) && cells == NodeCells(Node(nextId, val))
      modifies `reply, `nextId, `accepted
      ensures accepted == old(accepted) + cells && reply == old(reply) + [Node(old(nextId), val)]
      ensures Partial(buf[..bufpos], reply, sentlen) && Ordered(reply, nextId)
      ensures Conserved(accepted, sent, buf[..bufpos], reply, sentlen)
    {
      hide *;
      ghost var b := buf[..bufpos];
      var n := Node(nextId, val);
      Added(reply, n);
      AddedShape(b, reply, sentlen, nextId, val);
      ListGrows(accepted, sent, b, reply, sentlen, reply + [n], cells);
      reply, nextId, accepted := reply + [n], nextId + 1, accepted + cells;
    }

    /** addReply and addReplyString, of a reply in the form of bytes. */
    method AddReply(s: bytes, aeOk: bool)
      requires Valid()
      modifies this, buf
      ensures Valid() && sent == old(sent)
      ensures accepted == if old(Accepts(aeOk)) then old(accepted) + Plain(s) else old(accepted)
    {
      hide *;
      AcceptsIs(aeOk);
      var ok := PrepareClientToWrite(aeOk);
      if !ok { return; }
      ok := AddToBuffer(s);
      if !ok { AddToList(s); }
    }

    /** A reply is queued, and not dropped. */
    predicate Accepts(aeOk: bool)
      reads this
    {
      !closeAfterReply && (lua || (fdOk && (!Empty() || !online || aeOk)))
    }

    lemma AcceptsIs(aeOk: bool)
      ensures Accepts(aeOk) == (!closeAfterReply && (lua || (fdOk && (!Empty() || !online || aeOk))))
    {}

    /** addReply, of an object that holds an integer: short enough to be printed in place. */
    method AddReplyInt(v: int, aeOk: bool)
      requires Valid() && InLL(v)
      modifies this, buf
      ensures Valid() && sent == old(sent)
      ensures accepted == if old(Accepts(aeOk)) then old(accepted) + Plain(Print(v)) else old(accepted)
    {
      hide *;
      AcceptsIs(aeOk);
      var ok := PrepareClientToWrite(aeOk);
      if !ok { return; }
      ValidBuffer();
      if |reply| == 0 && buf.Length - bufpos >= 32 {
        var s := Ll2string(v);
        ok := AddToBuffer(s);
        if ok { return; }
      }
      var s := Ll2string(v);
      ok := AddToBuffer(s);
      if !ok { AddToList(s); }
    }

    lemma ValidBuffer()
      requires Valid()
      ensures buf.Length == REDIS_REPLY_CHUNK_BYTES && bufpos <= buf.Length
    {}

    /** addDeferredMultiBulkLength: a node to be filled in before the next write. */
    method AddDeferred(aeOk: bool) returns (node: Option<nat>)
      requires Valid()
      modifies this
      ensures Valid() && sent == old(sent)
      ensures node.Some? <==> lua || (fdOk && (!old(Empty()) || !online || aeOk))
      ensures accepted == if node.Some? then old(accepted) + [Hole(node.value)] else old(accepted)
      ensures node.Some? ==> reply == old(reply) + [Node(node.value, None)]
    {
      var ok := PrepareClientToWrite(aeOk);
      if !ok { return None; }
      Open();
      HoleCells(nextId);
      hide *;
      node := Some(nextId);
      AddNode(None, [Hole(nextId)]);
      Close();
    }

    /** setDeferredMultiBulkLength: the length takes the place kept for it. */
    method SetDeferred(node: Option<nat>, length: int)
      requires Valid() && InLL(length) && (node.Some? ==> exists k :: 0 <= k < |reply| && reply[k] == Node(node.value, None))
      modifies `reply, `accepted
      ensures Valid()
      ensures accepted == if node.Some? then Fill(old(accepted), node.value, Line(STAR, length)) else old(accepted)
    {
      if node == None { return; }
      var k: nat :| 0 <= k < |reply| && reply[k] == Node(node.value, None);
      var digits := Ll2string(length);
      LineText(length);
      var text := [STAR] + digits + CRLF;
      hide *;
      SetNode(k, text);
    }

    lemma LineText(length: int)
      ensures [STAR] + Print(length) + CRLF == Line(STAR, length)
    {}

    /** Lines 385-405, on the node at index `k`. */
    method SetNode(k: nat, text: bytes)
      requires Valid() && k < |reply| && reply[k].val == None
      modifies `reply, `accepted
      ensures Valid() && accepted == Fill(old(accepted), old(reply)[k].id, text)
    {
      Open();
      hide *;
      ghost var b, id := buf[..bufpos], reply[k].id;
      FilledIsFill(reply, k, text, nextId);
      FilledOrdered(reply, k, text, nextId);
      FilledPartial(b, reply, k, text, sentlen);
      FillKeeps(accepted, sent, b, reply, sentlen, Filled(reply, k, text), id, text);
      WriteNode(k, text);
      accepted := Fill(accepted, id, text);
      Close();
    }

    method WriteNode(k: nat, text: bytes)
      requires k < |reply|
      modifies `reply
      ensures reply == Filled(old(reply), k, text)
    {
      reply := reply[k := Node(reply[k].id, Some(text))];
      if k + 1 < |reply| {
        if reply[k + 1].val.Some? {
          reply := reply[k := Node(reply[k].id, Some(text + reply[k + 1].val.value))];
          reply := reply[..k + 1] + reply[k + 2..];
        }
      }
    }

    /** What write, asked for `len` bytes of the buffer, takes; a master gets nothing. */
    function Written(w: int, len: nat): (n: int)
      ensures n <= len && (master ==> n == len)
    {
      if master then len else if w > len then len else w
    }

    /** Lines 709-727: a part of the static buffer is sent. */
    method SendBuffer(w: int) returns (nwritten: int)
      requires Valid() && bufpos > 0
      modifies `bufpos, `sentlen, `sent
      ensures Valid() && nwritten <= REDIS_REPLY_CHUNK_BYTES
      ensures 0 < old(bufpos - sentlen) && nwritten == Written(w, old(bufpos - sentlen))
      ensures nwritten <= 0 ==> sent == old(sent) && bufpos == old(bufpos) && !master && nwritten == w
      ensures nwritten > 0 ==> old(sent) <= sent && |sent| == |old(sent)| + nwritten
    {
      InBuffer();
      WrittenIs(w, bufpos - sentlen);
      hide *;
      nwritten := Written(w, bufpos - sentlen);
      if nwritten <= 0 { return; }
      TakeFromBuffer(nwritten);
    }

    lemma WrittenIs(w: int, len: nat)
      ensures Written(w, len) <= 0 ==> (!master && Written(w, len) == w) || len == 0
    {}

    lemma InBuffer()
      requires Valid() && bufpos > 0
      ensures sentlen < bufpos <= REDIS_REPLY_CHUNK_BYTES
    {
      Open();
      BufferPartial(buf[..bufpos], reply, sentlen);
    }

    /** `n` bytes of the buffer are taken; when it was sent whole it starts again. */
    method TakeFromBuffer(n: nat)
      requires Valid() && bufpos > 0 && sentlen + n <= bufpos
      modifies `bufpos, `sentlen, `sent
      ensures Valid() && old(sent) <= sent && |sent| == |old(sent)| + n
    {
      Open();
      ghost var b := buf[..bufpos];
      BufferPartial(b, reply, sentlen);
      hide *;
      ghost var sent' := sent + b[sentlen..sentlen + n];
      BufferWritten(accepted, sent, b, reply, sentlen, n, sent');
      if sentlen + n == bufpos {
        sent, bufpos, sentlen := sent', 0, 0;
        NoBytes();
        FreshHead(buf[..0], reply, 0);
      } else {
        sent, sentlen := sent', sentlen + n;
        FreshHead(b, reply, sentlen);
      }
      Close();
    }

    /** Lines 728-749: a part of the first node is sent, or an empty node is dropped. */
    method SendNode(w: int) returns (nwritten: int, dropped: bool)
      requires Valid() && bufpos == 0 && reply != [] && AllKnown(reply)
      modifies `reply, `sentlen, `sent
      ensures Valid() && AllKnown(reply)
      ensures dropped ==> nwritten == 0 && sent == old(sent) && |reply| < |old(reply)|
      ensures dropped == (old(reply)[0].val == Some([]))
      ensures !dropped ==> old(reply)[0].val.Some? && old(sentlen) < |old(reply)[0].val.value|
      ensures !dropped ==> nwritten == Written(w, |old(reply)[0].val.value| - old(sentlen))
      ensures !dropped && nwritten <= 0 ==> sent == old(sent) && reply == old(reply) && !master && nwritten == w
      ensures !dropped && nwritten > 0 ==> old(sent) <= sent && |sent| == |old(sent)| + nwritten
    {
      Open();
      NoBytes();
      HeadPartial(reply, sentlen);
      hide *;
      var objlen := |reply[0].val.value|;
      if objlen == 0 {
        TakeFromHead(0);
        return 0, true;
      }
      nwritten, dropped := Written(w, objlen - sentlen), false;
      if nwritten <= 0 { return; }
      TakeFromHead(nwritten);
    }

    /** `n` bytes of the first node are taken; a node that was sent whole goes away. */
    method TakeFromHead(n: nat)
      requires Valid() && bufpos == 0 && reply != [] && AllKnown(reply) && reply[0].val.Some? && sentlen + n <= |reply[0].val.value|
      modifies `reply, `sentlen, `sent
      ensures Valid() && AllKnown(reply) && old(sent) <= sent && |sent| == |old(sent)| + n
      ensures |reply| == if old(sentlen) + n == |old(reply)[0].val.value| then |old(reply)| - 1 else |old(reply)|
    {
      Open();
      NoBytes();
      RestKnown(reply, nextId);
      hide *;
      ghost var sent' := sent + reply[0].val.value[sentlen..sentlen + n];
      HeadWritten(accepted, sent, reply, sentlen, n, sent');
      if sentlen + n == |reply[0].val.value| {
        FreshHead(buf[..0], reply[1..], 0);
        sent, sentlen, reply := sent', 0, reply[1..];
      } else {
        PartOfHead(reply, sentlen + n);
        sent, sentlen := sent', sentlen + n;
      }
      Close();
    }

    /** sendReplyToClient. `w(i)` is what the i-th write returns; memory(i) whether the
        server is over its memory limit; `eagain` what a failed write means. */
    method SendReplyToClient(w: nat -> int, memory: nat -> bool, eagain: bool)
      returns (freed: bool, ghost n: nat, ghost failed: bool, ghost last: nat)
      requires Valid() && AllKnown(reply)
      modifies `bufpos, `sentlen, `sent, `reply, `handler
      ensures Valid() && old(sent) <= sent
      ensures Empty() ==> accepted == Plain(sent)
      ensures handler == (old(handler) && !Empty())
      ensures Stopped(w, memory, n, failed, last, |sent| - |old(sent)|, master, Empty())
      ensures (master || forall i: nat :: w(i) > 0) ==> Empty() || |sent| > |old(sent)| + REDIS_MAX_WRITE_PER_EVENT
      ensures freed <==> (failed && w(n) == -1 && !eagain) || (Empty() && closeAfterReply)
    {
      hide Valid, Stopped;
      var nwritten;
      nwritten, n, failed, last := WriteQueue(w, memory);
      StoppedIs(w, memory, n, failed, last, |sent| - |old(sent)|, master, Empty());
      freed := false;
      if nwritten == -1 {
        if !eagain { return true, n, failed, last; }
      }
      if bufpos == 0 && |reply| == 0 {
        Drained();
        Rest();
        freed := closeAfterReply;
      }
    }

    /** Nothing is left to send: the handler goes. */
    method Rest()
      requires Valid() && bufpos == 0 && reply == [] && sentlen == 0
      modifies `sentlen, `handler
      ensures Valid() && !handler && sentlen == 0
    {
      sentlen, handler := 0, false;
    }

    lemma Drained()
      requires Valid() && bufpos == 0 && reply == []
      ensures accepted == Plain(sent) && sentlen == 0
    {
      NoBytes();
      assert Plain(sent) + [] == Plain(sent);
    }

    lemma SentFits()
      requires Valid()
      ensures |sent| <= |accepted|
    {}

    /** The buffer comes before the list. */
    method WriteOne(w: int) returns (nwritten: int, dropped: bool)
      requires Valid() && AllKnown(reply) && !Empty()
      modifies `bufpos, `sentlen, `sent, `reply
      ensures Valid() && AllKnown(reply)
      ensures dropped == (old(bufpos) == 0 && old(reply)[0].val == Some([]))
      ensures if dropped then sent == old(sent) && |reply| < |old(reply)| else nwritten == Written(w, old(Due()))
      ensures if !dropped && nwritten > 0 then old(sent) <= sent && |sent| == |old(sent)| + nwritten else sent == old(sent)
      ensures !dropped && nwritten <= 0 ==> !Empty() && !master && nwritten == w
      ensures !dropped && nwritten > 0 ==> master || w > 0
    {
      EmptyIs();
      DueIs();
      WrittenMore(w);
      hide *;
      dropped := false;
      if bufpos > 0 {
        nwritten := SendBuffer(w);
      } else {
        nwritten, dropped := SendNode(w);
      }
      EmptyIs();
    }

    lemma WrittenMore(w: int)
      ensures forall len: nat :: Written(w, len) > 0 ==> master || w > 0
    {}

    lemma EmptyIs()
      ensures Empty() <==> bufpos == 0 && |reply| == 0
    {}

    /** How many bytes the next write is asked for. */
    function Due(): nat
      requires Valid()
      reads this, buf
    {
      if bufpos > 0 then bufpos - sentlen else if reply != [] && reply[0].val.Some? then |reply[0].val.value| - sentlen else 0
    }

    lemma DueIs()
      requires Valid()
      ensures bufpos > 0 ==> Due() == bufpos - sentlen
      ensures bufpos == 0 && reply != [] && reply[0].val.Some? ==> Due() == |reply[0].val.value| - sentlen
    {}

    /** The loop of sendReplyToClient, and what the last write returned. */
    method WriteQueue(w: nat -> int, memory: nat -> bool) returns (nwritten: int, ghost n: nat, ghost failed: bool, ghost last: nat)
      requires Valid() && AllKnown(reply)
      modifies `bufpos, `sentlen, `sent, `reply
      ensures Valid() && AllKnown(reply) && old(sent) <= sent
      ensures Stopped(w, memory, n, failed, last, |sent| - |old(sent)|, master, Empty())
      ensures if failed then nwritten == w(n) else nwritten >= 0
    {
      var i, totwritten := 0, 0;
      nwritten, failed, n, last := 0, false, 0, 0;
      SentFits();
      GoingStart(w, memory, master);
      AheadIs(sent, 0);
      ghost var stopped := false;
      hide *;
      while bufpos > 0 || |reply| > 0
        invariant Valid() && AllKnown(reply) && Ahead(old(sent), totwritten)
        invariant nwritten >= 0 && !failed && !stopped && Going(w, memory, i, last, totwritten, master)
        decreases |accepted| - |sent|, |reply|
      {
        EmptyIs();
        ghost var before := sent;
        AheadIs(old(sent), totwritten);
        var took, dropped := WriteOne(w(i));
        SentFits();
        AheadMore(old(sent), before, totwritten, took);
        if dropped { continue; }
        nwritten := took;
        if nwritten <= 0 {
          failed, stopped := true, true;
          GoneOn(w, memory, i, last, totwritten, master);
          break;
        }
        GoingOn(w, memory, i, last, totwritten, master, took, Empty());
        last := nwritten;
        totwritten, i := totwritten + nwritten, i + 1;
        if totwritten > REDIS_MAX_WRITE_PER_EVENT && !memory(i) {
          stopped := true;
          break;
        }
      }
      EmptyIs();
      if !stopped { GoneOn(w, memory, i, last, totwritten, master); }
      n := i;
      AheadIs(old(sent), totwritten);
    }

    /** `total` more bytes were sent since `before`. */
    ghost predicate Ahead(before: bytes, total: int)
      reads this
    {
      before <= sent && |sent| == |before| + total
    }

    lemma AheadMore(start: bytes, before: bytes, total: int, took: int)
      requires start <= before && |before| == |start| + total
      ensures sent == before ==> Ahead(start, total)
      ensures before <= sent && |sent| == |before| + took ==> Ahead(start, total + took)
    {}

    lemma AheadIs(before: bytes, total: int)
      ensures Ahead(before, total) <==> before <= sent && |sent| == |before| + total
    {}
  }
}
