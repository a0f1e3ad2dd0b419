/** The logging daemon: its list of clients, the two reads that take in one frame, the registration
    gate, and the removal of every client that does not keep to the format. */
module Pl2rld {
  import opened Wire

  /** One entry of the client list.  `fd` is the number of the connection. */
  datatype Entry = Entry(fd: nat, pid: uint32, name: CText, registered: bool)

  /** One line handed to the RDK logger. */
  datatype Record = Record(name: CText, pid: uint32, severity: byte, mod: byte, text: CText)

  /** One read system call: bytes, EAGAIN, or another error.  No bytes is end of file. */
  datatype Read = Data(bytes: seq<byte>) | WouldBlock | Error

  /** The uninitialised receive buffer of one wakeup. */
  type Stale = s: seq<byte> | |s| == BUF_LEN witness Zeros(BUF_LEN)

  /** The receive buffer once a whole frame has been read into its front. */
  type Buffer = b: seq<byte> | |b| == BUF_LEN && U16(b, 0) < TYPE_MAX && HDR_LEN <= U16(b, 2) <= BUF_LEN
    witness [0, 0, 4, 0] + Zeros(BUF_LEN - HDR_LEN)

  function Front(b: Buffer): (f: Frame) {
    b[..U16(b, 2)]
  }

  // ---------------------------------------------------------------- one wakeup

  /** `Overrun` stands for a length field that the code turns into a read with no defined result:
      below the header length, or above the buffer. */
  datatype HeaderStep = Stay | Remove | Overrun | NeedBody(hdr: seq<byte>)

  function AfterHeader(h: Read): (r: HeaderStep)
    ensures r.NeedBody? ==> |r.hdr| == HDR_LEN && U16(r.hdr, 0) < TYPE_MAX
                            && HDR_LEN <= U16(r.hdr, 2) <= BUF_LEN
  {
    match h
    case WouldBlock => Stay
    case Error => Remove
    case Data(bytes) =>
      if |bytes| != HDR_LEN then Remove
      else if U16(bytes, 0) >= TYPE_MAX then Remove
      else if U16(bytes, 2) < HDR_LEN || BUF_LEN < U16(bytes, 2) then Overrun
      else NeedBody(bytes)
  }

  /** What a handled frame does to the client it came from. */
  datatype Effect = Keep(v: Entry, out: seq<Record>) | Gone

  function React(v: Entry, b: Buffer): Effect {
    if U16(b, 0) == TYPE_REGISTER then
      Keep(Entry(v.fd, U32(b, 4), UptoNul(b[8..8 + NAME_LEN - 1]), true), [])
    else if !v.registered then Gone
    else
      var end := if 8 + U16(b, 6) <= BUF_LEN then 8 + U16(b, 6) else BUF_LEN;
      Keep(v, [Record(v.name, v.pid, b[4], b[5], UptoNul(b[8..end]))])
  }

  predicate IsHeader(hdr: seq<byte>) {
    |hdr| == HDR_LEN && U16(hdr, 0) < TYPE_MAX && HDR_LEN <= U16(hdr, 2) <= BUF_LEN
  }

  function Fill(hdr: seq<byte>, body: seq<byte>, stale: Stale): (b: Buffer)
    requires IsHeader(hdr) && |body| == U16(hdr, 2) - HDR_LEN
    ensures Front(b) == hdr + body
  {
    var b := hdr + body + stale[U16(hdr, 2)..];
    assert b[..U16(hdr, 2)] == hdr + body;
    assert U16(b, 0) == U16(hdr, 0) && U16(b, 2) == U16(hdr, 2);
    b
  }

  function AfterBody(v: Entry, hdr: seq<byte>, r: Read, stale: Stale): Effect
    requires IsHeader(hdr)
  {
    if r.Data? && |r.bytes| == U16(hdr, 2) - HDR_LEN then React(v, Fill(hdr, r.bytes, stale)) else Gone
  }

  // ---------------------------------------------------------------- the client list

  predicate Distinct(vs: seq<Entry>) {
    forall i, j :: 0 <= i < j < |vs| ==> vs[i].fd != vs[j].fd
  }

  predicate Has(vs: seq<Entry>, fd: nat) {
    exists i :: 0 <= i < |vs| && vs[i].fd == fd
  }

  function IndexOf(vs: seq<Entry>, fd: nat): (i: nat)
    requires Has(vs, fd)
    ensures i < |vs| && vs[i].fd == fd
  {
    if vs[0].fd == fd then 0
    else
      assert Has(vs[1..], fd) by {
        var i :| 0 <= i < |vs| && vs[i].fd == fd;
        assert vs[1..][i - 1].fd == fd;
      }
      1 + IndexOf(vs[1..], fd)
  }

  function RemoveAt<T>(s: seq<T>, i: nat): seq<T>
    requires i < |s|
  {
    s[..i] + s[i + 1..]
  }

  /** The list with the entry of `fd` taken out. */
  function Without(vs: seq<Entry>, fd: nat): seq<Entry> {
    if Has(vs, fd) then RemoveAt(vs, IndexOf(vs, fd)) else vs
  }

  lemma WithoutRemovesExactlyOne(vs: seq<Entry>, k: nat)
    requires Distinct(vs) && k < |vs|
    ensures Without(vs, vs[k].fd) == vs[..k] + vs[k + 1..]
    ensures Distinct(Without(vs, vs[k].fd)) && !Has(Without(vs, vs[k].fd), vs[k].fd)
    ensures forall fd: nat :: fd != vs[k].fd ==> (Has(vs, fd) <==> Has(Without(vs, vs[k].fd), fd))
  {
    var ws := vs[..k] + vs[k + 1..];
    forall fd: nat | fd != vs[k].fd && Has(vs, fd)
      ensures Has(ws, fd)
    {
      var i := IndexOf(vs, fd);
      assert ws[if i < k then i else i - 1].fd == fd;
    }
  }

  /** What one wakeup of the client `fd` does to the whole list and the log. */
  function Apply(vs: seq<Entry>, fd: nat, e: Effect): seq<Entry>
    requires Has(vs, fd)
  {
    match e
    case Keep(v, _) => vs[IndexOf(vs, fd) := v]
    case Gone => Without(vs, fd)
  }

  /** The log lines of an effect of the client `fd`. */
  function Lines(fd: nat, e: Effect): seq<(nat, Record)> {
    if e.Keep? && e.out != [] then [(fd, e.out[0])] else []
  }

  function Recv(v: Entry, h: Read, r: Read, stale: Stale): Effect {
    match AfterHeader(h)
    case Stay => Keep(v, [])
    case NeedBody(hdr) => AfterBody(v, hdr, r, stale)
    case _ => Gone
  }

  /** The header read is none that announces a frame whose second read has no defined result. */
  predicate Defined(h: Read) {
    h.Data? && |h.bytes| == HDR_LEN && U16(h.bytes, 0) < 2 ==> 4 <= U16(h.bytes, 2) <= 4096
  }

  /** Who has to go: a client whose header cannot be read, is not of four bytes (as at the end of the stream), or has
      a type that is neither 0 nor 1; whose body cannot be read or is not of the announced length; and one that logs
      without having registered.  Nobody else goes. */
  lemma GoneIff(v: Entry, h: Read, r: Read, stale: Stale)
    requires Defined(h)
    ensures Recv(v, h, r, stale).Gone? <==>
            || h.Error?
            || (h.Data? && (|h.bytes| != 4
                            || 2 <= U16(h.bytes, 0)
                            || !r.Data? || |r.bytes| != U16(h.bytes, 2) - 4
                            || (U16(h.bytes, 0) == 1 && !v.registered)))
  {
    if h.Data? && |h.bytes| == HDR_LEN && U16(h.bytes, 0) < 2 && r.Data? && |r.bytes| == U16(h.bytes, 2) - HDR_LEN {
      TypeOfFill(h.bytes, r.bytes, stale);
    }
  }

  lemma TypeOfFill(hdr: seq<byte>, body: seq<byte>, stale: Stale)
    requires IsHeader(hdr) && |body| == U16(hdr, 2) - HDR_LEN
    ensures var b := Fill(hdr, body, stale);
            U16(b, 0) == U16(hdr, 0) && forall i :: 0 <= i < |hdr + body| ==> b[i] == (hdr + body)[i]
  {
    var b := Fill(hdr, body, stale);
    assert forall i :: 0 <= i < |Front(b)| ==> Front(b)[i] == b[i];
  }

  /** `text` is what stands in `f` from `at` on, for `most` bytes or up to the first zero. */
  predicate TextAt(f: seq<byte>, at: nat, most: nat, text: CText)
    requires at + most <= |f|
  {
    && |text| <= most && (forall i :: 0 <= i < |text| ==> text[i] == f[at + i])
    && (|text| < most ==> f[at + |text|] == 0)
  }

  lemma UptoNulIsText(b: seq<byte>, f: seq<byte>, at: nat, most: nat)
    requires at + most <= |f| && at + most <= |b| && forall i :: at <= i < at + most ==> b[i] == f[i]
    ensures TextAt(f, at, most, UptoNul(b[at..at + most]))
  {
    var t := UptoNul(b[at..at + most]);
    assert forall i :: 0 <= i < |t| ==> t[i] == b[at..at + most][i] == b[at + i];
  }

  /** What a frame does that is taken in, for frames of anybody: a REGISTER frame sets pid and name, the name having at
      most 31 characters, and logs nothing; a LOG frame changes nothing and logs one line, whose text is what the frame
      has for as many bytes as its text length says, or up to a zero. */
  lemma KeptIs(v: Entry, h: Read, r: Read, stale: Stale)
    requires Defined(h) && Recv(v, h, r, stale).Keep?
    ensures h.WouldBlock? ==> Recv(v, h, r, stale) == Keep(v, [])
    ensures !h.WouldBlock? ==> h.Data? && r.Data? && |h.bytes| == 4
    ensures !h.WouldBlock? ==>
              var f, e := h.bytes + r.bytes, Recv(v, h, r, stale);
              && (U16(f, 0) == 0 ==> e.v.fd == v.fd && e.v.registered && e.out == [])
              && (U16(f, 0) == 0 && 39 <= |f| ==> e.v.pid == U32(f, 4) && TextAt(f, 8, 31, e.v.name))
              && (U16(f, 0) == 1 ==> e.v == v && |e.out| == 1 && e.out[0].name == v.name && e.out[0].pid == v.pid)
              && (U16(f, 0) == 1 && 8 <= |f| && 8 + U16(f, 6) <= |f| ==>
                    && e.out[0].severity == f[4] && e.out[0].mod == f[5]
                    && TextAt(f, 8, U16(f, 6), e.out[0].text))
  {
    if h.Data? {
      GoneIff(v, h, r, stale);
      var f, b := h.bytes + r.bytes, Fill(h.bytes, r.bytes, stale);
      TypeOfFill(h.bytes, r.bytes, stale);
      assert U16(f, 0) == U16(h.bytes, 0);
      if U16(f, 0) == 0 && 39 <= |f| { UptoNulIsText(b, f, 8, 31); }
      if U16(f, 0) == 1 && 8 <= |f| && 8 + U16(f, 6) <= |f| { UptoNulIsText(b, f, 8, U16(f, 6)); }
    }
  }

  class PClient {
    const fd: nat
    var pid: uint32
    var name: CText
    var registered: bool

    constructor (fd: nat)
      ensures this.fd == fd && Value() == Entry(fd, 0, [], false)
    {
      this.fd := fd;
      pid, name, registered := 0, [], false;
    }

    ghost function Value(): Entry
      reads this
    {
      Entry(fd, pid, name, registered)
    }
  }

  class Daemon {
    var clients: seq<PClient>
    var log: seq<(nat, Record)>

    ghost function Entries(): seq<Entry>
      reads this, clients
    {
      seq(|clients|, i requires 0 <= i < |clients| reads this, clients => clients[i].Value())
    }

    /** The list holds no client twice, and no two clients share a connection. */
    ghost predicate Valid()
      reads this, clients
    {
      && (forall i, j :: 0 <= i < j < |clients| ==> clients[i] != clients[j])
      && Distinct(Entries())
    }

    constructor ()
      ensures Valid() && clients == [] && log == []
    {
      clients, log := [], [];
    }

    method ClientAdd(fd: nat)
      requires Valid() && !Has(Entries(), fd)
      modifies this
      ensures Valid() && log == old(log)
      ensures Entries() == old(Entries()) + [Entry(fd, 0, [], false)]
    {
      var pc := new PClient(fd);
      clients := clients + [pc];
      assert forall i :: 0 <= i < |old(clients)| ==> Entries()[i] == old(Entries())[i];
      assert !Has(old(Entries()), fd);
    }

    method ClientRemove(pc: PClient)
      requires Valid() && pc in clients
      modifies this
      ensures Valid() && log == old(log) && pc !in clients
      ensures |clients| == |old(clients)| - 1 && forall c :: c in clients ==> c in old(clients)
      ensures Entries() == Without(old(Entries()), pc.fd)
    {
      var k := 0;
      while clients[k] != pc
        invariant 0 <= k < |clients| && pc in clients[k..]
        decreases |clients| - k
      {
        k := k + 1;
      }
      ghost var before := Entries();
      clients := clients[..k] + clients[k + 1..];
      WithoutRemovesExactlyOne(before, k);
      assert Entries() == before[..k] + before[k + 1..];
    }

    method ClientCleanup()
      requires Valid()
      modifies this
      ensures Valid() && clients == [] && log == old(log)
    {
      while clients != []
        invariant Valid() && log == old(log)
        decreases |clients|
      {
        ClientRemove(clients[0]);
      }
    }

    method ClientByEvio(fd: nat) returns (pc: PClient?)
      requires Valid()
      ensures pc == null <==> !Has(Entries(), fd)
      ensures pc != null ==> pc in clients && pc.fd == fd && Entries()[IndexOf(Entries(), fd)] == pc.Value()
    {
      for i := 0 to |clients|
        invariant forall j :: 0 <= j < i ==> clients[j].fd != fd
      {
        if clients[i].fd == fd {
          assert Entries()[i].fd == fd;
          return clients[i];
        }
      }
      return null;
    }

    lemma Listed(pc: PClient) returns (k: nat)
      requires Valid() && pc in clients
      ensures k < |clients| && clients[k] == pc && Entries()[k] == pc.Value()
      ensures Has(Entries(), pc.fd) && IndexOf(Entries(), pc.fd) == k
    {
      k :| 0 <= k < |clients| && clients[k] == pc;
      assert Entries()[k].fd == pc.fd;
    }

    method ClientRecvReg(pc: PClient, msg: Buffer)
      requires Valid() && pc in clients && U16(msg, 0) == TYPE_REGISTER
      modifies pc
      ensures Valid() && log == old(log) && Has(old(Entries()), pc.fd)
      ensures Entries() == Apply(old(Entries()), pc.fd, React(old(pc.Value()), msg))
      ensures Lines(pc.fd, React(old(pc.Value()), msg)) == []
    {
      ghost var k := Listed(pc);
      ghost var before := Entries();
      pc.name := UptoNul(msg[8..8 + NAME_LEN - 1]);
      pc.pid := U32(msg, 4);
      pc.registered := true;
      assert Entries() == before[k := pc.Value()];
    }

    method ClientRecvLog(pc: PClient, msg: Buffer)
      requires Valid() && pc in clients && U16(msg, 0) == TYPE_LOG
      modifies this
      ensures Valid() && Has(old(Entries()), pc.fd)
      ensures Entries() == Apply(old(Entries()), pc.fd, React(old(pc.Value()), msg))
      ensures log == old(log) + Lines(pc.fd, React(old(pc.Value()), msg))
    {
      ghost var k := Listed(pc);
      if !pc.registered {
        ClientRemove(pc);
        return;
      }
      var end := if 8 + U16(msg, 6) <= BUF_LEN then 8 + U16(msg, 6) else BUF_LEN;
      log := log + [(pc.fd, Record(pc.name, pc.pid, msg[4], msg[5], UptoNul(msg[8..end])))];
      assert Entries() == old(Entries());
    }

    /** One wakeup.  The header must not announce a length the second read cannot take. */
    method ClientRecv(pc: PClient, h: Read, r: Read, stale: Stale)
      requires Valid() && pc in clients && !AfterHeader(h).Overrun?
      modifies this, pc
      ensures Valid() && Has(old(Entries()), pc.fd)
      ensures Entries() == Apply(old(Entries()), pc.fd, Recv(old(pc.Value()), h, r, stale))
      ensures log == old(log) + Lines(pc.fd, Recv(old(pc.Value()), h, r, stale))
    {
      ghost var k := Listed(pc);
      if h.WouldBlock? { return; }
      if h.Error? || |h.bytes| != HDR_LEN {
        ClientRemove(pc);
        return;
      }
      if U16(h.bytes, 0) >= TYPE_MAX {
        ClientRemove(pc);
        return;
      }
      var rlen := U16(h.bytes, 2) - HDR_LEN;
      if !r.Data? || |r.bytes| != rlen {
        ClientRemove(pc);
        return;
      }
      var buf := Fill(h.bytes, r.bytes, stale);
      ghost var v := pc.Value();
      assert Recv(v, h, r, stale) == React(v, buf);
      if U16(buf, 0) == TYPE_REGISTER {
        ClientRecvReg(pc, buf);
      } else {
        ClientRecvLog(pc, buf);
      }
    }

    /** The libev callback of a client connection. */
    method ClientEvio(fd: nat, failed: bool, h: Read, r: Read, stale: Stale)
      requires Valid() && !AfterHeader(h).Overrun?
      modifies this, clients
      ensures Valid()
      ensures !Has(old(Entries()), fd) ==> Entries() == old(Entries()) && log == old(log)
      ensures Has(old(Entries()), fd) ==>
                var v := old(Entries())[IndexOf(old(Entries()), fd)];
                var e := if failed then Gone else Recv(v, h, r, stale);
                Entries() == Apply(old(Entries()), fd, e) && log == old(log) + Lines(fd, e)
    {
      var pc := ClientByEvio(fd);
      if pc == null { return; }
      if failed {
        ClientRemove(pc);
        return;
      }
      ClientRecv(pc, h, r, stale);
    }
  }
}
