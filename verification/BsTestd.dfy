/** The decoding half of the band-steering tools: strsep takes a command apart token by token, and the
    tokens fill the structures of the Wi-Fi HAL. */
module BsTestd {
  import opened Basics
  import opened Text

  const SEP := ';'

  // ---------------------------------------------------------------- C types

  function U8(x: int): nat { x % 0x100 }

  function U16(x: int): nat { x % 0x1_0000 }

  function U32(x: int): nat { x % 0x1_0000_0000 }

  /** unsigned long is taken to have 64 bits. */
  function U64(x: int): nat { x % 0x1_0000_0000_0000_0000 }

  function I32(x: int): int {
    if U32(x) < 0x8000_0000 then U32(x) else U32(x) - 0x1_0000_0000
  }

  /** A cast wraps: it gives the one value of the type that differs by a multiple of the type's size. */
  lemma CastsWrap(x: int)
    ensures U8(x) < 0x100 && exists k: int :: x == U8(x) + k * 0x100
    ensures U16(x) < 0x1_0000 && exists k: int :: x == U16(x) + k * 0x1_0000
    ensures U32(x) < 0x1_0000_0000 && exists k: int :: x == U32(x) + k * 0x1_0000_0000
    ensures U64(x) < 0x1_0000_0000_0000_0000 && exists k: int :: x == U64(x) + k * 0x1_0000_0000_0000_0000
    ensures -0x8000_0000 <= I32(x) < 0x8000_0000 && exists k: int :: x == I32(x) + k * 0x1_0000_0000
  {
    assert x == U8(x) + (x / 0x100) * 0x100;
    assert x == U16(x) + (x / 0x1_0000) * 0x1_0000;
    assert x == U64(x) + (x / 0x1_0000_0000_0000_0000) * 0x1_0000_0000_0000_0000;
    var k := x / 0x1_0000_0000;
    assert x == U32(x) + k * 0x1_0000_0000;
    assert x == I32(x) + (if U32(x) < 0x8000_0000 then k else k + 1) * 0x1_0000_0000;
  }

  const ZERO_MAC: Mac := [0, 0, 0, 0, 0, 0]

  /** The bytes that sscanf with "%hhx:%hhx:..." converts, `n` of them at most. */
  function ScanBytes(s: string, n: nat): (bs: seq<nat>)
    ensures |bs| <= n && forall k :: 0 <= k < |bs| ==> bs[k] < 0x100
    decreases n
  {
    var k := HexRun(s);
    if n == 0 || k == 0 then []
    else [U8(HexNumber(s[..k]))] + (if k < |s| && s[k] == ':' then ScanBytes(s[k + 1..], n - 1) else [])
  }

  /** What str_to_mac_addr leaves in an address that held `prior`. */
  function ScanMac(s: string, prior: Mac): Mac {
    var bs := ScanBytes(s, 6);
    bs + prior[|bs|..]
  }

  // ---------------------------------------------------------------- tokens

  /** The tokens that repeated strsep calls will yield. */
  function Tokens(params: Option<string>): seq<string> {
    if params.None? then [] else Split(params.value, SEP)
  }

  /** The tokens from `k` on are left. */
  ghost predicate LeftFrom(params: Option<string>, ts: seq<string>, k: nat) {
    k <= |ts| && Tokens(params) == ts[k..] && (params.None? <==> k == |ts|)
  }

  /** strsep: the next token, and what is left.  `ts` are all the tokens, and `k` have been taken. */
  method NextToken(params: Option<string>, ghost ts: seq<string>, ghost k: nat)
    returns (token: string, rest: Option<string>)
    requires k < |ts| && LeftFrom(params, ts, k)
    ensures token == ts[k] && LeftFrom(rest, ts, k + 1)
  {
    var r := Strsep(params.value, SEP);
    token, rest := r.0, r.1;
    assert ts[k..][0] == ts[k] && ts[k..][1..] == ts[k + 1..];
  }

  // ---------------------------------------------------------------- BTM request

  datatype Candidate = Candidate(bssid: Mac, info: nat, opClass: nat, channel: nat, phyTable: nat, preference: nat)

  const NO_CANDIDATE := Candidate(ZERO_MAC, 0, 0, 0, 0, 0)

  datatype Btm = Btm(apIndex: int, peerMac: Mac, token: nat, requestMode: nat, timer: nat, validityInterval: nat,
                     tsf: nat, duration: nat, numCandidates: nat, candidates: seq<Candidate>)

  /** The candidate that six tokens describe. */
  function CandidateOf(ts: seq<string>, k: nat): Candidate
    requires k + 6 <= |ts|
  {
    Candidate(ScanMac(ts[k], ZERO_MAC), U32(Strtol(ts[k + 1])), U8(Strtol(ts[k + 2])), U8(Strtol(ts[k + 3])),
              U8(Strtol(ts[k + 4])), U8(Strtol(ts[k + 5])))
  }

  /** The `n` candidates from token `k` on. */
  function CandidatesOf(ts: seq<string>, k: nat, n: nat): (cs: seq<Candidate>)
    requires k + 6 * n <= |ts|
    ensures |cs| == n
    decreases n
  {
    if n == 0 then [] else [CandidateOf(ts, k)] + CandidatesOf(ts, k + 6, n - 1)
  }

  function CountOf(ts: seq<string>): nat
    requires 9 <= |ts|
  {
    U8(Strtol(ts[8]))
  }

  /** The tokens describe as many candidates as they say. */
  predicate BtmTokens(ts: seq<string>) {
    9 <= |ts| && 9 + 6 * CountOf(ts) <= |ts|
  }

  function BtmOf(ts: seq<string>, prior: Mac): Btm
    requires BtmTokens(ts)
  {
    Btm(I32(Atoi(ts[0])), ScanMac(ts[1], prior), U8(Strtol(ts[2])), U8(Strtol(ts[3])), U16(Strtol(ts[4])),
        U8(Strtol(ts[5])), U64(Strtol(ts[6])), U16(Strtol(ts[7])), CountOf(ts), CandidatesOf(ts, 9, CountOf(ts)))
  }

  /** Decode a BTM request.  `prior` is what the stack holds where the peer address goes, and `room` the
      number of candidates that the HAL structure takes. */
  method HandleSetBtmRequest(params: string, prior: Mac, room: nat) returns (request: Btm)
    requires BtmTokens(Split(params, SEP)) && CountOf(Split(params, SEP)) <= room
    ensures request == BtmOf(Split(params, SEP), prior)
  {
    hide U8, U16, U32, U64, I32, Strtol, Atoi, ScanMac, CandidatesOf, Split;
    ghost var ts := Split(params, SEP);
    var t0, t1, t2, t3, t4, t5, t6, t7, t8;
    var p: Option<string> := Some(params);
    assert ts[0..] == ts;
    t0, p := NextToken(p, ts, 0);
    t1, p := NextToken(p, ts, 1);
    t2, p := NextToken(p, ts, 2);
    t3, p := NextToken(p, ts, 3);
    t4, p := NextToken(p, ts, 4);
    t5, p := NextToken(p, ts, 5);
    t6, p := NextToken(p, ts, 6);
    t7, p := NextToken(p, ts, 7);
    t8, p := NextToken(p, ts, 8);
    var numCandidates := U8(Strtol(t8));
    var candidates := new Candidate[room](_ => NO_CANDIDATE);
    ReadCandidates(candidates, p, numCandidates, ts);
    request := Btm(I32(Atoi(t0)), ScanMac(t1, prior), U8(Strtol(t2)), U8(Strtol(t3)), U16(Strtol(t4)),
                   U8(Strtol(t5)), U64(Strtol(t6)), U16(Strtol(t7)), numCandidates, candidates[..numCandidates]);
  }

  /** The loop over the candidates, which fills the array of the request. */
  method ReadCandidates(candidates: array<Candidate>, params: Option<string>, n: nat, ghost ts: seq<string>)
    requires 9 + 6 * n <= |ts| && n <= candidates.Length && LeftFrom(params, ts, 9)
    modifies candidates
    ensures candidates[..n] == CandidatesOf(ts, 9, n)
  {
    var p := params;
    hide CandidateOf;
    ghost var k, todo, done := 9, n, [];
    for i := 0 to n
      invariant i + todo == n && k + 6 * todo <= |ts| && LeftFrom(p, ts, k)
      invariant CandidatesOf(ts, 9, n) == done + CandidatesOf(ts, k, todo)
      invariant candidates[..i] == done
    {
      p := ReadCandidate(candidates, i, p, ts, k);
      Shift(done, CandidateOf(ts, k), CandidatesOf(ts, k + 6, todo - 1));
      done := done + [CandidateOf(ts, k)];
      k, todo := k + 6, todo - 1;
    }
  }

  lemma Shift<T>(front: seq<T>, x: T, back: seq<T>)
    ensures front + ([x] + back) == (front + [x]) + back
  {
  }

  /** One turn of the loop. */
  method ReadCandidate(candidates: array<Candidate>, i: nat, params: Option<string>, ghost ts: seq<string>,
                       ghost k: nat)
    returns (rest: Option<string>)
    requires i < candidates.Length && k + 6 <= |ts| && LeftFrom(params, ts, k)
    modifies candidates
    ensures candidates[..i + 1] == old(candidates[..i]) + [CandidateOf(ts, k)]
    ensures LeftFrom(rest, ts, k + 6)
  {
    var t0, t1, t2, t3, t4, t5;
    rest := params;
    t0, rest := NextToken(rest, ts, k);
    t1, rest := NextToken(rest, ts, k + 1);
    t2, rest := NextToken(rest, ts, k + 2);
    t3, rest := NextToken(rest, ts, k + 3);
    t4, rest := NextToken(rest, ts, k + 4);
    t5, rest := NextToken(rest, ts, k + 5);
    candidates[i] := Candidate(ScanMac(t0, ZERO_MAC), U32(Strtol(t1)), U8(Strtol(t2)), U8(Strtol(t3)), U8(Strtol(t4)),
                               U8(Strtol(t5)));
  }

  // ---------------------------------------------------------------- steering group

  const MAX_AP_CFG := 20

  datatype ApConfig = ApConfig(apIndex: int, utilCheck: nat, utilAvg: nat, inactCheck: nat, inactThreshold: nat)

  const ZERO_CONFIG := ApConfig(0, 0, 0, 0, 0)

  function ConfigOf(ts: seq<string>, k: nat): ApConfig
    requires k + 5 <= |ts|
  {
    ApConfig(I32(Atoi(ts[k])), U32(Atoi(ts[k + 1])), U32(Atoi(ts[k + 2])), U32(Atoi(ts[k + 3])), U32(Atoi(ts[k + 4])))
  }

  /** Tokens from `k` on that the loop can read: it stops at the last one, and a configuration has five. */
  predicate GroupTokens(ts: seq<string>, k: nat, room: nat)
    decreases room
  {
    room == 0 || |ts| <= k + 1
    || (if ts[k] == "NULL" then GroupTokens(ts, k + 1, room - 1)
        else k + 5 <= |ts| && GroupTokens(ts, k + 5, room - 1))
  }

  /** What the loop reads from token `k` on, with room for `room` more configurations. */
  function ConfigsOf(ts: seq<string>, k: nat, room: nat): (cs: seq<ApConfig>)
    requires GroupTokens(ts, k, room)
    ensures |cs| <= room
    decreases room
  {
    if room == 0 || |ts| <= k + 1 then []
    else if ts[k] == "NULL" then [ZERO_CONFIG] + ConfigsOf(ts, k + 1, room - 1)
    else [ConfigOf(ts, k)] + ConfigsOf(ts, k + 5, room - 1)
  }

  /** Decode a steering group, in the variant for a list of configurations. */
  method HandleSetGroup(params: string) returns (group: nat, cfgs: seq<ApConfig>)
    requires GroupTokens(Split(params, SEP), 1, MAX_AP_CFG)
    ensures group == U32(Atoi(Split(params, SEP)[0]))
    ensures cfgs == ConfigsOf(Split(params, SEP), 1, MAX_AP_CFG)
  {
    ghost var ts := Split(params, SEP);
    assert ts[0..] == ts;
    var tok, p := NextToken(Some(params), ts, 0);
    group := U32(Atoi(tok));
    var apCfg := new ApConfig[MAX_AP_CFG](_ => ZERO_CONFIG);
    var n := ReadEntries(apCfg, p, ts);
    cfgs := apCfg[..n];
  }

  /** The loop over the entries, which fills the zeroed array. */
  method ReadEntries(apCfg: array<ApConfig>, params: Option<string>, ghost ts: seq<string>) returns (n: nat)
    requires forall j :: 0 <= j < apCfg.Length ==> apCfg[j] == ZERO_CONFIG
    requires LeftFrom(params, ts, 1)
    requires GroupTokens(ts, 1, apCfg.Length)
    modifies apCfg
    ensures n <= apCfg.Length && apCfg[..n] == ConfigsOf(ts, 1, apCfg.Length)
  {
    hide ConfigOf;
    var p, tok := params, "";
    n := 0;
    ghost var k: nat, cfgs: seq<ApConfig> := 1, [];
    while n < apCfg.Length
      invariant n <= apCfg.Length && LeftFrom(p, ts, k)
      invariant GroupTokens(ts, k, apCfg.Length - n)
      invariant ConfigsOf(ts, 1, apCfg.Length) == cfgs + ConfigsOf(ts, k, apCfg.Length - n)
      invariant apCfg[..n] == cfgs
      invariant forall j :: n <= j < apCfg.Length ==> apCfg[j] == ZERO_CONFIG
    {
      if p.None? { break; }
      tok, p := NextToken(p, ts, k);
      if p.None? { break; }
      cfgs := NextEntry(ts, k, apCfg.Length - n, cfgs);
      p := ReadEntry(apCfg, n, tok, p, ts, k);
      k, n := EntryEnd(ts, k), n + 1;
    }
  }

  lemma NextEntry(ts: seq<string>, k: nat, room: nat, cfgs: seq<ApConfig>) returns (cfgs': seq<ApConfig>)
    requires 0 < room && k + 1 < |ts| && GroupTokens(ts, k, room)
    ensures EntryEnd(ts, k) <= |ts| && GroupTokens(ts, EntryEnd(ts, k), room - 1)
    ensures cfgs' == cfgs + [EntryOf(ts, k)]
    ensures cfgs + ConfigsOf(ts, k, room) == cfgs' + ConfigsOf(ts, EntryEnd(ts, k), room - 1)
  {
    cfgs' := cfgs + [EntryOf(ts, k)];
    Shift(cfgs, EntryOf(ts, k), ConfigsOf(ts, EntryEnd(ts, k), room - 1));
  }

  /** Where the entry that starts at token `k` ends. */
  ghost function EntryEnd(ts: seq<string>, k: nat): nat
    requires k < |ts|
  {
    if ts[k] == "NULL" then k + 1 else k + 5
  }

  ghost function EntryOf(ts: seq<string>, k: nat): ApConfig
    requires k < |ts| && EntryEnd(ts, k) <= |ts|
  {
    if ts[k] == "NULL" then ZERO_CONFIG else ConfigOf(ts, k)
  }

  /** One turn of the loop: NULL leaves the zeroed entry as it is. */
  method ReadEntry(apCfg: array<ApConfig>, n: nat, token: string, params: Option<string>, ghost ts: seq<string>,
                   ghost k: nat)
    returns (rest: Option<string>)
    requires n < apCfg.Length && apCfg[n] == ZERO_CONFIG
    requires k + 1 < |ts| && EntryEnd(ts, k) <= |ts| && token == ts[k]
    requires LeftFrom(params, ts, k + 1)
    modifies apCfg
    ensures apCfg[..n + 1] == old(apCfg[..n]) + [EntryOf(ts, k)]
    ensures apCfg[n + 1..] == old(apCfg[n + 1..])
    ensures LeftFrom(rest, ts, EntryEnd(ts, k))
  {
    if token == "NULL" {
      rest := params;
    } else {
      var cfg;
      cfg, rest := SetCfg(token, params, ts, k);
      apCfg[n] := cfg;
    }
  }

  /** The configuration whose first token is `token`, the others still to be taken. */
  method SetCfg(token: string, params: Option<string>, ghost ts: seq<string>, ghost k: nat)
    returns (cfg: ApConfig, rest: Option<string>)
    requires k + 5 <= |ts| && token == ts[k] && LeftFrom(params, ts, k + 1)
    ensures cfg == ConfigOf(ts, k) && LeftFrom(rest, ts, k + 5)
  {
    var t1, t2, t3, t4;
    rest := params;
    t1, rest := NextToken(rest, ts, k + 1);
    t2, rest := NextToken(rest, ts, k + 2);
    t3, rest := NextToken(rest, ts, k + 3);
    t4, rest := NextToken(rest, ts, k + 4);
    cfg := ApConfig(I32(Atoi(token)), U32(Atoi(t1)), U32(Atoi(t2)), U32(Atoi(t3)), U32(Atoi(t4)));
  }

  // ---------------------------------------------------------------- dispatch

  /** The command name and the parameters behind it. */
  method HandleCmd(cmd: string) returns (name: string, params: Option<string>)
    ensures Split(cmd, SEP) == [name] + Tokens(params)
  {
    ghost var ts := Split(cmd, SEP);
    assert ts[0..] == ts;
    name, params := NextToken(Some(cmd), ts, 0);
  }
}
