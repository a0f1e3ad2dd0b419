/** The cached leases: a growing array per server, the list of servers with the life of the file watcher,
    and the rebuild of the caches from the lease file. */
module LeaseCache {
  import opened Basics
  import opened LeaseParse

  const QUANTUM := 16
  const LINE_LEN := 1024

  // ---------------------------------------------------------------- leases without repetition

  predicate SameKey(a: Lease, b: Lease) {
    a.ip == b.ip && a.mac == b.mac
  }

  predicate Exists(ls: seq<Lease>, l: Lease) {
    exists i :: 0 <= i < |ls| && SameKey(l, ls[i])
  }

  function AddLease(ls: seq<Lease>, l: Lease): seq<Lease> {
    if Exists(ls, l) then ls else ls + [l]
  }

  function AddAll(ls: seq<Lease>, more: seq<Lease>): seq<Lease>
    decreases |more|
  {
    if more == [] then ls else AddAll(AddLease(ls, more[0]), more[1..])
  }

  predicate DistinctKeys(ls: seq<Lease>) {
    forall i, j :: 0 <= i < j < |ls| ==> !SameKey(ls[i], ls[j])
  }

  /** The leases that no lease before them has the key of, in order. */
  function Firsts(ls: seq<Lease>): seq<Lease> {
    if ls == [] then []
    else
      var front, last := ls[..|ls| - 1], ls[|ls| - 1];
      Firsts(front) + (if Exists(front, last) then [] else [last])
  }

  lemma {:induction false} FirstsHaveAllKeys(ls: seq<Lease>)
    ensures DistinctKeys(Firsts(ls))
    ensures forall l :: Exists(Firsts(ls), l) <==> Exists(ls, l)
  {
    if ls != [] {
      var front, last := ls[..|ls| - 1], ls[|ls| - 1];
      FirstsHaveAllKeys(front);
      var fs := Firsts(front);
      forall l
        ensures Exists(Firsts(ls), l) <==> Exists(ls, l)
      {
        ExistsSnoc(front, last, l);
        ExistsSnoc(fs, last, l);
        assert ls == front + [last] && fs + [] == fs;
        if Exists(front, last) && SameKey(l, last) { SameExists(front, l, last); }
      }
      if !Exists(front, last) {
        assert !Exists(fs, last);
      }
    }
  }

  /** No lease before the one at `i` shares both its addresses. */
  predicate IsNew(ls: seq<Lease>, i: nat)
    requires i < |ls|
  {
    forall j :: 0 <= j < i ==> ls[j].ip != ls[i].ip || ls[j].mac != ls[i].mac
  }

  /** The places of the new leases. */
  function Places(ls: seq<Lease>, n: nat): seq<nat>
    requires n <= |ls|
  {
    if n == 0 then [] else Places(ls, n - 1) + if IsNew(ls, n - 1) then [n - 1] else []
  }

  function Picked(ls: seq<Lease>, at: seq<nat>): seq<Lease>
    requires forall a :: 0 <= a < |at| ==> at[a] < |ls|
  {
    seq(|at|, a requires 0 <= a < |at| => ls[at[a]])
  }

  /** They come in order, each once. */
  lemma {:induction false} PlacesAre(ls: seq<Lease>, n: nat)
    requires n <= |ls|
    ensures var at := Places(ls, n);
            && (forall a :: 0 <= a < |at| ==> at[a] < n)
            && (forall a, b :: 0 <= a < b < |at| ==> at[a] < at[b])
            && forall i :: 0 <= i < n ==> (i in at <==> IsNew(ls, i))
  {
    hide IsNew;
    if 0 < n {
      var before := Places(ls, n - 1);
      PlacesAre(ls, n - 1);
      assert forall i :: i in before + [n - 1] <==> i in before || i == n - 1;
    }
  }

  /** What is kept are the leases at the places of the new ones, in order. */
  lemma {:induction false} FirstsAre(ls: seq<Lease>)
    ensures forall a :: 0 <= a < |Places(ls, |ls|)| ==> Places(ls, |ls|)[a] < |ls|
    ensures Firsts(ls) == Picked(ls, Places(ls, |ls|))
  {
    PlacesAre(ls, |ls|);
    if ls != [] {
      hide IsNew, Exists;
      var n := |ls| - 1;
      FirstsAre(ls[..n]);
      SamePlaces(ls[..n], ls, n);
      NewIff(ls, n);
      PlacesAre(ls, n);
      PickedNext(ls, Places(ls, n));
    }
  }

  lemma PickedNext(ls: seq<Lease>, at: seq<nat>)
    requires ls != [] && forall a :: 0 <= a < |at| ==> at[a] < |ls| - 1
    ensures Picked(ls[..|ls| - 1], at) == Picked(ls, at)
    ensures Picked(ls, at + [|ls| - 1]) == Picked(ls, at) + [ls[|ls| - 1]]
    ensures at + [] == at && Picked(ls, at) + [] == Picked(ls, at)
  {
  }

  lemma NewIff(ls: seq<Lease>, n: nat)
    requires n < |ls|
    ensures IsNew(ls, n) <==> !Exists(ls[..n], ls[n])
  {
    assert forall j :: 0 <= j < n ==> ls[..n][j] == ls[j];
    if !IsNew(ls, n) {
      var j :| 0 <= j < n && ls[j].ip == ls[n].ip && ls[j].mac == ls[n].mac;
      assert SameKey(ls[n], ls[..n][j]);
    }
  }

  lemma {:induction false} SamePlaces(a: seq<Lease>, b: seq<Lease>, n: nat)
    requires a <= b && n <= |a|
    ensures Places(a, n) == Places(b, n)
  {
    if 0 < n {
      SamePlaces(a, b, n - 1);
      assert forall j :: 0 <= j < n ==> a[j] == b[j];
    }
  }

  lemma ExistsSnoc(front: seq<Lease>, last: Lease, l: Lease)
    ensures Exists(front + [last], l) <==> Exists(front, l) || SameKey(l, last)
  {
    var ls := front + [last];
    if Exists(front, l) {
      var i :| 0 <= i < |front| && SameKey(l, front[i]);
      assert SameKey(l, ls[i]);
    }
    if SameKey(l, last) { assert SameKey(l, ls[|front|]); }
  }

  lemma SameExists(ls: seq<Lease>, a: Lease, b: Lease)
    requires SameKey(a, b) && Exists(ls, b)
    ensures Exists(ls, a)
  {
    var i :| 0 <= i < |ls| && SameKey(b, ls[i]);
    assert SameKey(a, ls[i]);
  }

  /** Adding leases one after the other to an empty cache keeps exactly the first of every key. */
  lemma {:induction false} AddAllIsFirsts(ls: seq<Lease>)
    ensures AddAll([], ls) == Firsts(ls)
  {
    if ls != [] {
      var front, last := ls[..|ls| - 1], ls[|ls| - 1];
      assert ls == front + [last];
      AddAllSnoc([], front, last);
      AddAllIsFirsts(front);
      AddNext(front, last);
    }
  }

  lemma {:induction false} AddAllSnoc(ls: seq<Lease>, more: seq<Lease>, l: Lease)
    ensures AddAll(ls, more + [l]) == AddLease(AddAll(ls, more), l)
    decreases |more|
  {
    if more == [] {
      assert ([l] + [])[1..] == [] && more + [l] == [l];
    } else {
      assert (more + [l])[1..] == more[1..] + [l];
      AddAllSnoc(AddLease(ls, more[0]), more[1..], l);
    }
  }

  lemma AddNext(done: seq<Lease>, l: Lease)
    ensures AddLease(Firsts(done), l) == Firsts(done + [l])
  {
    FirstsHaveAllKeys(done);
    assert (done + [l])[..|done|] == done;
    assert Firsts(done) + [] == Firsts(done);
  }

  // ---------------------------------------------------------------- the lease file

  datatype LeaseFile = Unreadable | Unlocked | Content(text: string)

  /** The length of the next line that fgets returns: up to its newline, or as much as the buffer takes. */
  function LineLen(s: string): (n: nat)
    requires s != ""
    ensures 0 < n <= |s|
  {
    LineLenWithin(s, LINE_LEN - 1)
  }

  function LineLenWithin(s: string, room: nat): (n: nat)
    requires s != "" && 0 < room
    ensures 0 < n <= |s| && n <= room
    ensures (forall i :: 0 <= i < n - 1 ==> s[i] != '\n') && (n < room && n < |s| ==> s[n - 1] == '\n')
  {
    if s[0] == '\n' || room == 1 || |s| == 1 then 1 else 1 + LineLenWithin(s[1..], room - 1)
  }

  function Lines(s: string): seq<string>
    decreases |s|
  {
    if s == "" then [] else [s[..LineLen(s)]] + Lines(s[LineLen(s)..])
  }

  /** The lines one after the other. */
  function Together(lines: seq<string>): string {
    if lines == [] then "" else lines[0] + Together(lines[1..])
  }

  /** A line has at most 1023 characters, and a newline at its end only. */
  predicate LineFits(line: string) {
    0 < |line| <= 1023 && '\n' !in line[..|line| - 1]
  }

  /** A line that is not the last one: there was a newline, or the buffer was full. */
  predicate LineEnds(line: string) {
    line != "" && (line[|line| - 1] == '\n' || |line| == 1023)
  }

  /** The lines are the text, cut behind every newline and wherever 1023 characters have come without one. */
  lemma {:induction false} LinesAre(s: string)
    ensures var lines := Lines(s);
            && Together(lines) == s
            && (forall i :: 0 <= i < |lines| ==> LineFits(lines[i]))
            && (forall i :: 0 <= i < |lines| - 1 ==> LineEnds(lines[i]))
    decreases |s|
  {
    hide LineLen, LineFits, LineEnds;
    if s != "" {
      var n := LineLen(s);
      var first, more := s[..n], Lines(s[n..]);
      LinesAre(s[n..]);
      FirstLine(s);
      assert s == first + s[n..];
      var lines := [first] + more;
      assert Lines(s) == lines && lines[1..] == more;
      assert more != [] ==> s[n..] != "";
      forall i | 0 <= i < |lines|
        ensures LineFits(lines[i]) && (i < |lines| - 1 ==> LineEnds(lines[i]))
      {
        assert 0 < i ==> lines[i] == more[i - 1];
      }
    }
  }

  lemma FirstLine(s: string)
    requires s != ""
    ensures LineFits(s[..LineLen(s)]) && (s[LineLen(s)..] != "" ==> LineEnds(s[..LineLen(s)]))
  {
  }

  type Parser = string -> Option<Lease>

  /** The leases of the lines that parse, in order. */
  function ParseAll(parse: Parser, lines: seq<string>): seq<Lease> {
    if lines == [] then []
    else (if parse(lines[0]).Some? then [parse(lines[0]).value] else []) + ParseAll(parse, lines[1..])
  }

  lemma {:induction false} ParseAllAppend(parse: Parser, a: seq<string>, b: seq<string>)
    ensures ParseAll(parse, a + b) == ParseAll(parse, a) + ParseAll(parse, b)
  {
    if a == [] {
      assert a + b == b;
    } else {
      var own := if parse(a[0]).Some? then [parse(a[0]).value] else [];
      assert (a + b)[0] == a[0] && (a + b)[1..] == a[1..] + b;
      ParseAllAppend(parse, a[1..], b);
      assert ParseAll(parse, a + b) == own + (ParseAll(parse, a[1..]) + ParseAll(parse, b));
      assert ParseAll(parse, a) == own + ParseAll(parse, a[1..]);
    }
  }

  /** A line gives its lease in its place, or nothing. */
  lemma ParseAllAt(parse: Parser, front: seq<string>, line: string, back: seq<string>)
    ensures ParseAll(parse, front + [line] + back) == ParseAll(parse, front)
              + (match parse(line) case Some(l) => [l] case None => []) + ParseAll(parse, back)
  {
    ParseAllAppend(parse, front, [line]);
    ParseAllAppend(parse, front + [line], back);
  }

  function LeasesOf(parse: Parser, file: LeaseFile): seq<Lease> {
    if file.Content? then ParseAll(parse, Lines(file.text)) else []
  }

  // ---------------------------------------------------------------- one server

  /** The number of quanta that hold `n` leases. */
  function Quanta(n: nat): nat {
    if n % QUANTUM == 0 then n / QUANTUM else n / QUANTUM + 1
  }

  /** The array's length and the leases in it. */
  datatype Store = Store(capacity: nat, leases: seq<Lease>)

  /** What happens to the array of one server: a lease is added, or the cache is cleared. */
  datatype ArrayEvent = Put(l: Lease) | Clear

  function StoreStep(s: Store, e: ArrayEvent): Store {
    match e
    case Clear => Store(0, [])
    case Put(l) =>
      if Exists(s.leases, l) then s
      else Store(if |s.leases| % QUANTUM == 0 then |s.leases| + QUANTUM else s.capacity, s.leases + [l])
  }

  /** What the outside sees of a server: its leases, and the leases at each notification so far. */
  datatype Seen = Seen(ifname: string, notify: bool, leases: seq<Lease>, notes: seq<seq<Lease>>)

  function Notified(v: Seen): Seen {
    if v.notify then v.(notes := v.notes + [v.leases]) else v
  }

  class Server {
    const ifname: string
    var notify: bool                // a status callback is set
    var leases: array?<Lease>
    var len: nat
    ghost var contents: seq<Lease>
    var notes: seq<nat>             // the number of leases at each notification
    ghost var seen: seq<seq<Lease>> // the leases at each notification

    ghost predicate Valid()
      reads this, leases
    {
      && |contents| == len
      && |notes| == |seen| && (forall i :: 0 <= i < |notes| ==> notes[i] == |seen[i]|)
      && (leases == null <==> len == 0)
      && (leases != null ==>
            leases.Length == QUANTUM * Quanta(len) && len <= leases.Length && leases[..len] == contents)
      && DistinctKeys(contents)
    }

    /** What the outside sees of the server. */
    ghost function Look(): Seen
      reads this
    {
      Seen(ifname, notify, contents, seen)
    }

    ghost function Array(): Store
      reads this
    {
      Store(if leases == null then 0 else leases.Length, contents)
    }

    constructor (ifname: string)
      ensures Valid() && this.ifname == ifname && contents == [] && !notify && seen == [] && leases == null
    {
      this.ifname := ifname;
      notify, leases, len, contents, notes, seen := false, null, 0, [], [], [];
    }

    method LeaseClear()
      requires Valid()
      modifies this
      ensures Valid() && leases == null && Look() == old(Look()).(leases := [])
      ensures Array() == StoreStep(old(Array()), Clear)
    {
      leases := null;
      len, contents := 0, [];
    }

    method LeaseExists(dl: Lease) returns (found: bool)
      requires Valid()
      ensures found <==> Exists(contents, dl)
      ensures found <==> exists i :: 0 <= i < |contents| && contents[i].ip == dl.ip && contents[i].mac == dl.mac
    {
      for i := 0 to len
        invariant leases != null ==> forall j :: 0 <= j < i ==> !SameKey(dl, contents[j])
      {
        assert leases[i] == contents[i];
        if dl.ip != leases[i].ip { continue; }
        if dl.mac != leases[i].mac { continue; }
        return true;
      }
      return false;
    }

    method LeaseAdd(dl: Lease)
      requires Valid()
      modifies this, leases
      ensures Valid() && Look() == old(Look()).(leases := AddLease(old(contents), dl))
      ensures Array() == StoreStep(old(Array()), Put(dl))
      ensures leases == old(leases) || fresh(leases)
    {
      var found := LeaseExists(dl);
      if found { return; }
      if len % QUANTUM == 0 {
        var bigger := new Lease[len + QUANTUM](
          (i: nat) reads this, leases => if i < len && leases != null && i < leases.Length then leases[i] else dl);
        assert bigger[..len] == contents;
        leases := bigger;
      }
      leases[len] := dl;
      len := len + 1;
      contents := contents + [dl];
      assert leases[..len] == contents;
    }

    /** The status callback, if there is one. */
    method Dispatch()
      requires Valid()
      modifies this`notes, this`seen
      ensures Valid() && Look() == Notified(old(Look()))
    {
      if notify {
        notes := notes + [len];
        seen := seen + [contents];
      }
    }
  }

  // ---------------------------------------------------------------- all servers

  datatype Dhcp = Dhcp(servers: seq<Seen>, watching: bool)

  function AllCleared(vs: seq<Seen>): seq<Seen> {
    seq(|vs|, i requires 0 <= i < |vs| => vs[i].(leases := []))
  }

  function AllNotified(vs: seq<Seen>): seq<Seen> {
    seq(|vs|, i requires 0 <= i < |vs| => Notified(vs[i]))
  }

  /** The parsed leases all go to the head of the list. */
  function Parsed(vs: seq<Seen>, ls: seq<Lease>): seq<Seen> {
    if vs == [] then [] else vs[0 := vs[0].(leases := AddAll(vs[0].leases, ls))]
  }

  /** The caches as a simple function of the file: the head holds the first of every key, the others
      nothing, and whatever was cached before is gone; then everybody with a callback is notified. */
  function Rebuilt(vs: seq<Seen>, ls: seq<Lease>): (r: seq<Seen>)
    ensures |r| == |vs|
  {
    seq(|vs|, i requires 0 <= i < |vs| => Notified(vs[i].(leases := if i == 0 then Firsts(ls) else [])))
  }

  // one event of the whole server list
  datatype Event =
    | New(ifname: string)
    | Delete(k: nat)
    | Notify(k: nat, on: bool)
    | Change(linked: bool, file: LeaseFile)
    | Load(file: LeaseFile)

  function Step(d: Dhcp, e: Event, parse: Parser, nameLen: nat): Dhcp {
    match e
    case New(ifname) =>
      if nameLen <= |ifname| then d
      else Dhcp(d.servers + [Seen(ifname, false, [], [])], if d.servers == [] then true else d.watching)
    case Delete(k) =>
      if k < |d.servers| then
        var left := d.servers[..k] + d.servers[k + 1..];
        Dhcp(left, if d.watching && left == [] then false else d.watching)
      else d
    case Notify(k, on) =>
      if k < |d.servers| then d.(servers := d.servers[k := d.servers[k].(notify := on)]) else d
    case Change(linked, file) => d.(servers := Rebuilt(d.servers, if linked then LeasesOf(parse, file) else []))
    case Load(file) => d.(servers := Rebuilt(d.servers, LeasesOf(parse, file)))
  }

  function HeadAdded(vs: seq<Seen>, l: Lease): seq<Seen> {
    if vs == [] then [] else vs[0 := vs[0].(leases := AddLease(vs[0].leases, l))]
  }

  /** The next line of the file, and what is left to add after it. */
  lemma ParseStep(vs: seq<Seen>, parse: Parser, rest: string)
    requires rest != ""
    ensures var dl, more := parse(rest[..LineLen(rest)]), ParseAll(parse, Lines(rest[LineLen(rest)..]));
            Parsed(vs, ParseAll(parse, Lines(rest)))
            == Parsed(if dl.Some? && vs != [] then HeadAdded(vs, dl.value) else vs, more)
  {
    var line, after := rest[..LineLen(rest)], rest[LineLen(rest)..];
    assert Lines(rest)[0] == line && Lines(rest)[1..] == Lines(after);
    var dl, more := parse(line), ParseAll(parse, Lines(after));
    if dl.Some? {
      assert ParseAll(parse, Lines(rest)) == [dl.value] + more;
      assert ([dl.value] + more)[1..] == more;
    } else {
      assert ParseAll(parse, Lines(rest)) == [] + more == more;
    }
  }

  lemma ParseEnd(vs: seq<Seen>, parse: Parser)
    ensures Parsed(vs, ParseAll(parse, Lines(""))) == vs
  {
  }

  class DhcpServers {
    var servers: seq<Server>
    var watching: bool          // the file watcher is active

    ghost function View(): Dhcp
      reads this, servers
    {
      Dhcp(seq(|servers|, i requires 0 <= i < |servers| reads this, servers => servers[i].Look()), watching)
    }

    ghost predicate Distinct()
      reads this
    {
      forall i, j :: 0 <= i < j < |servers| ==> servers[i] != servers[j]
    }

    ghost predicate Valid()
      reads this, servers, set s | s in servers :: s.leases
    {
      && Distinct()
      && (forall i :: 0 <= i < |servers| ==> servers[i].Valid())
      && (forall i :: 1 <= i < |servers| ==> servers[i].contents == [])
      && (watching <==> servers != [])
    }

    constructor ()
      ensures Valid() && View() == Dhcp([], false)
    {
      servers, watching := [], false;
    }

    /** `nameLen` is the size of the interface name buffer. */
    method ServerNew(ifname: string, nameLen: nat) returns (s: Server?)
      requires Valid()
      modifies this
      ensures Valid()
      ensures s == null <==> nameLen <= |ifname|
      ensures s == null ==> servers == old(servers) && watching == old(watching)
      ensures s != null ==>
                && fresh(s) && servers == old(servers) + [s] && watching
                && s.ifname == ifname && !s.notify && s.contents == [] && s.seen == []
      ensures forall parse: Parser :: View() == Step(old(View()), New(ifname), parse, nameLen)
    {
      if nameLen <= |ifname| { return null; }
      s := new Server(ifname);
      if servers == [] { watching := true; }
      servers := servers + [s];
    }

    method ServerDel(k: nat)
      requires Valid() && k < |servers|
      modifies this
      ensures Valid()
      ensures servers == old(servers[..k] + servers[k + 1..]) && (watching <==> |old(servers)| > 1)
      ensures forall parse: Parser, n: nat :: View() == Step(old(View()), Delete(k), parse, n)
    {
      hide DistinctKeys, Quanta;
      servers := servers[..k] + servers[k + 1..];
      if watching && servers == [] { watching := false; }
    }

    method StatusNotify(k: nat, on: bool)
      requires Valid() && k < |servers|
      modifies servers[k]
      ensures Valid() && servers == old(servers) && servers[k].notify == on
      ensures servers[k].contents == old(servers[k].contents) && servers[k].seen == old(servers[k].seen)
      ensures forall parse: Parser, n: nat :: View() == Step(old(View()), Notify(k, on), parse, n)
    {
      servers[k].notify := on;
    }

    method ClearAll()
      requires Valid()
      modifies servers
      ensures Valid() && watching == old(watching) && servers == old(servers)
      ensures forall s :: s in servers ==> s.leases == null
      ensures View().servers == AllCleared(old(View()).servers)
    {
      hide DistinctKeys, Quanta, StoreStep, Notified, Exists;
      ghost var before := View().servers;
      for i := 0 to |servers|
        invariant Valid()
        invariant forall j :: 0 <= j < i ==> servers[j].leases == null && servers[j].Look() == before[j].(leases := [])
        invariant forall j :: i <= j < |servers| ==> servers[j].Look() == before[j]
      {
        assert servers[i].Valid();
        servers[i].LeaseClear();
        assert forall j :: 0 <= j < |servers| && j != i ==> servers[j] != servers[i];
      }
    }

    /** The walk over the list ends in its first turn: a lease cannot be told from another. */
    method FindByLease() returns (s: Server?)
      ensures s == null <==> servers == []
      ensures s != null ==> servers != [] && s == servers[0]
    {
      for i := 0 to |servers|
        invariant i == 0
      {
        return servers[i];
      }
      return null;
    }

    /** The array that the leases go to. */
    ghost function HeadArray(): set<array?<Lease>>
      reads this, servers
    {
      if servers == [] then {} else {servers[0].leases}
    }

    method LeaseParse(parse: Parser, file: LeaseFile) returns (ok: bool)
      requires Valid()
      modifies servers, HeadArray()
      ensures Valid() && watching == old(watching) && servers == old(servers) && ok == file.Content?
      ensures View().servers == Parsed(old(View()).servers, LeasesOf(parse, file))
    {
      if !file.Content? { return false; }
      hide DistinctKeys, ParseAll, Lines, LineLen, Parsed, HeadAdded;
      var rest := file.text;
      ghost var before, all := View().servers, LeasesOf(parse, file);
      while rest != ""
        invariant Valid() && forall s :: s in servers ==> s.leases == old(s.leases) || fresh(s.leases)
        invariant Parsed(View().servers, ParseAll(parse, Lines(rest))) == Parsed(before, all)
        decreases |rest|
      {
        var line := rest[..LineLen(rest)];
        ParseStep(View().servers, parse, rest);
        rest := rest[LineLen(rest)..];
        AddLine(parse, line);
      }
      ParseEnd(View().servers, parse);
      return true;
    }

    /** One line of the file: a lease goes to the first server, and the others stay as they are. */
    method AddLine(parse: Parser, line: string)
      requires Valid()
      modifies servers, HeadArray()
      ensures Valid() && watching == old(watching) && servers == old(servers)
      ensures forall s :: s in servers ==> s.leases == old(s.leases) || fresh(s.leases)
      ensures View().servers
           == if parse(line).Some? && servers != [] then HeadAdded(old(View()).servers, parse(line).value)
              else old(View()).servers
    {
      hide DistinctKeys, AddLease, Exists, StoreStep, Quanta;
      var dl := parse(line);
      if dl.None? { return; }
      var ds := FindByLease();
      if ds == null { return; }
      ds.LeaseAdd(dl.value);
    }

    method StatusDispatch()
      requires Valid()
      modifies servers
      ensures Valid() && watching == old(watching) && servers == old(servers)
      ensures View().servers == AllNotified(old(View()).servers)
    {
      hide DistinctKeys, Quanta, Notified;
      ghost var before := View().servers;
      for i := 0 to |servers|
        invariant Valid()
        invariant forall j :: 0 <= j < i ==> servers[j].Look() == Notified(before[j])
        invariant forall j :: i <= j < |servers| ==> servers[j].Look() == before[j]
      {
        assert servers[i].Valid();
        servers[i].Dispatch();
        assert forall j :: 0 <= j < |servers| && j != i ==> servers[j] != servers[i];
      }
    }

    /** The lease file changed, or is gone. */
    method LeaseOnchange(linked: bool, parse: Parser, file: LeaseFile)
      requires Valid()
      modifies servers
      ensures Valid()
      ensures forall n: nat :: View() == Step(old(View()), Change(linked, file), parse, n)
      ensures servers == old(servers) && forall i :: 0 <= i < |servers| ==>
                && servers[i].contents == (if i == 0 && linked then Firsts(LeasesOf(parse, file)) else [])
                && servers[i].seen == if servers[i].notify then old(servers[i].seen) + [servers[i].contents]
                                      else old(servers[i].seen)
    {
      ghost var before := View().servers;
      ClearAll();
      if linked {
        var _ := LeaseParse(parse, file);
      }
      StatusDispatch();
      RebuildsAs(before, if linked then LeasesOf(parse, file) else []);
      Rebuilds(before, if linked then LeasesOf(parse, file) else []);
    }

    /** The initial load. */
    method LeaseInit(parse: Parser, file: LeaseFile)
      requires Valid()
      modifies servers
      ensures Valid()
      ensures forall n: nat :: View() == Step(old(View()), Load(file), parse, n)
      ensures servers == old(servers) && forall i :: 0 <= i < |servers| ==>
                && servers[i].contents == (if i == 0 then Firsts(LeasesOf(parse, file)) else [])
                && servers[i].seen == if servers[i].notify then old(servers[i].seen) + [servers[i].contents]
                                      else old(servers[i].seen)
    {
      ghost var before := View().servers;
      ClearAll();
      var _ := LeaseParse(parse, file);
      StatusDispatch();
      RebuildsAs(before, LeasesOf(parse, file));
      Rebuilds(before, LeasesOf(parse, file));
    }

    /** What a rebuild means for each server: the cache, and one notification of it. */
    lemma Rebuilds(before: seq<Seen>, ls: seq<Lease>)
      requires |before| == |servers| && View().servers == Rebuilt(before, ls)
      ensures forall i :: 0 <= i < |servers| ==>
                && servers[i].contents == (if i == 0 then Firsts(ls) else [])
                && servers[i].notify == before[i].notify
                && servers[i].seen == if before[i].notify then before[i].notes + [servers[i].contents]
                                      else before[i].notes
    {
      forall i | 0 <= i < |servers|
        ensures servers[i].Look() == Notified(before[i].(leases := if i == 0 then Firsts(ls) else []))
      {
        assert View().servers[i] == servers[i].Look();
      }
    }
  }

  /** Clearing, parsing and notifying amount to the rebuild, with or without leases to add. */
  lemma RebuildsAs(vs: seq<Seen>, ls: seq<Lease>)
    ensures AllNotified(Parsed(AllCleared(vs), ls)) == Rebuilt(vs, ls)
    ensures AllNotified(AllCleared(vs)) == Rebuilt(vs, [])
  {
    AddAllIsFirsts(ls);
    assert Firsts([]) == [];
  }

  /** The rebuilt caches do not depend on what was cached before. */
  lemma {:induction false} RebuildForgets(vs: seq<Seen>, ws: seq<Seen>, ls: seq<Lease>)
    requires AllCleared(vs) == AllCleared(ws)
    ensures Rebuilt(vs, ls) == Rebuilt(ws, ls)
  {
    forall i | 0 <= i < |vs|
      ensures vs[i].(leases := []) == ws[i].(leases := [])
    {
      assert AllCleared(vs)[i] == AllCleared(ws)[i];
    }
  }

  // ---------------------------------------------------------------- whole runs

  function Run(es: seq<Event>, parse: Parser, nameLen: nat): Dhcp {
    if es == [] then Dhcp([], false) else Step(Run(es[..|es| - 1], parse, nameLen), es[|es| - 1], parse, nameLen)
  }

  /** In every reachable state the watcher is active exactly when there is a server, and only the head of
      the list holds leases, no two with one key: also after the head is deleted, and after a creation
      that fails on its name. */
  lemma {:induction false} ReachableStates(es: seq<Event>, parse: Parser, nameLen: nat)
    ensures var d := Run(es, parse, nameLen);
            && (d.watching <==> d.servers != [])
            && (forall i :: 1 <= i < |d.servers| ==> d.servers[i].leases == [])
            && (d.servers != [] ==> DistinctKeys(d.servers[0].leases))
  {
    if es != [] {
      ReachableStates(es[..|es| - 1], parse, nameLen);
      match es[|es| - 1] {
        case Change(linked, file) => FirstsHaveAllKeys(if linked then LeasesOf(parse, file) else []);
        case Load(file) => FirstsHaveAllKeys(LeasesOf(parse, file));
        case _ =>
      }
    }
  }

  // ---------------------------------------------------------------- the array of one server

  function StoreRun(es: seq<ArrayEvent>): Store {
    if es == [] then Store(0, []) else StoreStep(StoreRun(es[..|es| - 1]), es[|es| - 1])
  }

  /** After any adds and clears the array is exactly as long as whole quanta need, so that the next append
      has room once the array has grown; and no two leases share their addresses. */
  lemma {:induction false} ArrayFits(es: seq<ArrayEvent>)
    ensures var s := StoreRun(es);
            && s.capacity % 16 == 0 && |s.leases| <= s.capacity
            && (if s.leases == [] then s.capacity == 0 else s.capacity < |s.leases| + 16)
            && DistinctKeys(s.leases)
            && forall l :: !Exists(s.leases, l) ==> |s.leases| < StoreStep(s, Put(l)).capacity
  {
    hide DistinctKeys, Exists;
    if es != [] {
      var s, e := StoreRun(es[..|es| - 1]), es[|es| - 1];
      ArrayFits(es[..|es| - 1]);
      if e.Put? && !Exists(s.leases, e.l) { DistinctMore(s.leases, e.l); }
    }
    NoneDistinct();
  }

  lemma NoneDistinct()
    ensures DistinctKeys([])
  {
  }

  lemma DistinctMore(ls: seq<Lease>, l: Lease)
    requires DistinctKeys(ls) && !Exists(ls, l)
    ensures DistinctKeys(ls + [l])
  {
  }
}
