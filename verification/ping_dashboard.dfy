/**
 * The state side of the ping dashboard (Ejemplos/ping.py): the per-host
 * counters kept in the session, how one round of measurements is folded
 * into them, the table derived from them, the host list typed by the user
 * and the auto-refresh gate.
 *
 * A round arrives as the measurements `ping_many` returns, in whatever
 * order the probes completed; clocks are parameters (`now` as the
 * formatted timestamp string, `nowTs` as the seconds of `time.time()`).
 */
module PingDashboard {
  import opened Wrappers
  import opened Text
  import opened PingProbe

  /** One entry of `st.session_state.stats`. */
  datatype HostStats = HostStats(sent: nat, recv: nat, lastRtt: Option<real>, lastAlive: bool, lastChecked: string)

  /** The entry `stats.get(ip, ...)` falls back to for a host never probed. */
  const Unseen: HostStats := HostStats(0, 0, None, false, "")

  function Lookup(stats: map<string, HostStats>, ip: string): HostStats {
    if ip in stats then stats[ip] else Unseen
  }

  /** The body of the loop of `update_stats` for one measurement. */
  function Record(s: HostStats, m: Measurement, now: string): HostStats {
    HostStats(
      s.sent + 1,
      if m.alive then s.recv + 1 else s.recv,
      if m.alive then m.rttMs else s.lastRtt,
      m.alive,
      now)
  }

  /** The stats after the first `|ms|` rows of `update_stats(ms)`. */
  function Fold(stats: map<string, HostStats>, ms: seq<Measurement>, now: string): map<string, HostStats>
    decreases |ms|
  {
    if ms == [] then stats
    else
      var before := Fold(stats, ms[..|ms| - 1], now);
      var m := ms[|ms| - 1];
      before[m.ip := Record(Lookup(before, m.ip), m, now)]
  }

  /** Every host has received no more replies than probes were sent to it. */
  ghost predicate Consistent(stats: map<string, HostStats>) {
    forall ip :: ip in stats ==> stats[ip].recv <= stats[ip].sent
  }

  /** The effect of one row: counters, liveness and timestamp; the RTT only when alive. */
  lemma RecordEffect(s: HostStats, m: Measurement, now: string)
    ensures Record(s, m, now).sent == s.sent + 1
    ensures Record(s, m, now).recv == s.recv + (if m.alive then 1 else 0)
    ensures Record(s, m, now).lastAlive == m.alive && Record(s, m, now).lastChecked == now
    ensures m.alive ==> Record(s, m, now).lastRtt == m.rttMs
    ensures !m.alive ==> Record(s, m, now).lastRtt == s.lastRtt
  {
  }

  /** How often `ip` appears in a round, and how often it was alive there. */
  function CountHost(ms: seq<Measurement>, ip: string): nat {
    if ms == [] then 0 else CountHost(ms[..|ms| - 1], ip) + (if ms[|ms| - 1].ip == ip then 1 else 0)
  }

  function CountAlive(ms: seq<Measurement>, ip: string): nat {
    if ms == [] then 0 else CountAlive(ms[..|ms| - 1], ip) + (if ms[|ms| - 1].ip == ip && ms[|ms| - 1].alive then 1 else 0)
  }

  /** Folding a round keeps `recv <= sent` for every host. */
  lemma {:induction false} FoldConsistent(stats: map<string, HostStats>, ms: seq<Measurement>, now: string)
    requires Consistent(stats)
    ensures Consistent(Fold(stats, ms, now))
    decreases |ms|
  {
    if ms != [] {
      FoldConsistent(stats, ms[..|ms| - 1], now);
    }
  }

  /**
   * Per host, a round adds one probe per occurrence of the host and one
   * reply per occurrence that was alive (duplicates are counted each
   * time); a host absent from the round is left exactly as it was.
   */
  lemma {:induction false} FoldCounts(stats: map<string, HostStats>, ms: seq<Measurement>, now: string, ip: string)
    ensures Lookup(Fold(stats, ms, now), ip).sent == Lookup(stats, ip).sent + CountHost(ms, ip)
    ensures Lookup(Fold(stats, ms, now), ip).recv == Lookup(stats, ip).recv + CountAlive(ms, ip)
    ensures CountHost(ms, ip) == 0 ==> (ip in Fold(stats, ms, now) <==> ip in stats)
    ensures CountHost(ms, ip) == 0 ==> Lookup(Fold(stats, ms, now), ip) == Lookup(stats, ip)
    ensures CountHost(ms, ip) > 0 ==> ip in Fold(stats, ms, now)
    decreases |ms|
  {
    if ms != [] {
      FoldCounts(stats, ms[..|ms| - 1], now, ip);
    }
  }

  /** The hosts of a round. */
  function HostsOf(ms: seq<Measurement>): (hosts: seq<string>)
    ensures |hosts| == |ms| && forall k :: 0 <= k < |ms| ==> hosts[k] == ms[k].ip
  {
    if ms == [] then [] else HostsOf(ms[..|ms| - 1]) + [ms[|ms| - 1].ip]
  }

  /** No host appears twice in the round. */
  predicate DistinctHosts(ms: seq<Measurement>) {
    forall i, j :: 0 <= i < j < |ms| ==> ms[i].ip != ms[j].ip
  }

  /**
   * In a round over distinct hosts, the entry of the host of row `k` is
   * that one row applied to the host's previous entry.
   */
  lemma {:induction false} FoldAt(stats: map<string, HostStats>, ms: seq<Measurement>, now: string, k: nat)
    requires DistinctHosts(ms) && k < |ms|
    ensures ms[k].ip in Fold(stats, ms, now)
    ensures Fold(stats, ms, now)[ms[k].ip] == Record(Lookup(stats, ms[k].ip), ms[k], now)
    decreases |ms|
  {
    var init := ms[..|ms| - 1];
    if k < |ms| - 1 {
      assert init[k] == ms[k];
      FoldAt(stats, init, now, k);
      assert ms[k].ip != ms[|ms| - 1].ip;
    } else {
      FoldAbsent(stats, init, now, ms[k].ip);
    }
  }

  /** A host that the round does not mention keeps its entry, or stays absent. */
  lemma {:induction false} FoldAbsent(stats: map<string, HostStats>, ms: seq<Measurement>, now: string, ip: string)
    requires forall k :: 0 <= k < |ms| ==> ms[k].ip != ip
    ensures ip in Fold(stats, ms, now) <==> ip in stats
    ensures Lookup(Fold(stats, ms, now), ip) == Lookup(stats, ip)
    decreases |ms|
  {
    if ms != [] {
      var init := ms[..|ms| - 1];
      assert forall k :: 0 <= k < |init| ==> init[k] == ms[k];
      FoldAbsent(stats, init, now, ip);
      assert ms[|ms| - 1].ip != ip;
    }
  }

  /**
   * `ping_many` hands back the measurements in completion order; for a
   * round over distinct hosts that order does not change the resulting
   * stats.
   */
  lemma CompletionOrderIrrelevant(stats: map<string, HostStats>, ms1: seq<Measurement>, ms2: seq<Measurement>, now: string)
    requires DistinctHosts(ms1) && DistinctHosts(ms2) && multiset(ms1) == multiset(ms2)
    ensures Fold(stats, ms1, now) == Fold(stats, ms2, now)
  {
    var f1 := Fold(stats, ms1, now);
    var f2 := Fold(stats, ms2, now);
    forall ip ensures (ip in f1 <==> ip in f2) && (ip in f1 ==> f1[ip] == f2[ip]) {
      if k1 :| 0 <= k1 < |ms1| && ms1[k1].ip == ip {
        var m := ms1[k1];
        assert m in multiset(ms2);
        var k2 :| 0 <= k2 < |ms2| && ms2[k2] == m;
        FoldAt(stats, ms1, now, k1);
        FoldAt(stats, ms2, now, k2);
      } else {
        forall k | 0 <= k < |ms2| ensures ms2[k].ip != ip {
          assert ms2[k] in multiset(ms1);
        }
        FoldAbsent(stats, ms1, now, ip);
        FoldAbsent(stats, ms2, now, ip);
      }
    }
  }

  /**
   * The scenario of three rounds against one host: replies of 10 ms and
   * 12 ms, then a timeout. Two of three probes answered; the host is now
   * down and still shows the last RTT it replied with.
   */
  lemma ThreeRoundScenario(t1: string, t2: string, t3: string)
    ensures var s1 := Fold(map[], [Measurement("8.8.8.8", true, Some(10.0))], t1);
            var s2 := Fold(s1, [Measurement("8.8.8.8", true, Some(12.0))], t2);
            var s3 := Fold(s2, [PingOnce("8.8.8.8", TimedOut)], t3);
            s3["8.8.8.8"] == HostStats(3, 2, Some(12.0), false, t3)
  {
  }

  // ---------------------------------------------------------------------
  // build_table
  // ---------------------------------------------------------------------

  datatype Status = Up | Down

  /** One row of the data frame `build_table` returns (the RTT before rounding). */
  datatype TableRow = TableRow(
    host: string, status: Status, lastRtt: Option<real>,
    sent: nat, recv: nat, lossPct: Option<real>, checked: string)

  /** `(1 - recv / sent) * 100` before `round`, or nothing when no probe was sent. */
  function LossPercent(sent: nat, recv: nat): (loss: Option<real>)
    ensures loss.None? <==> sent == 0
    ensures loss.Some? && recv <= sent ==> 0.0 <= loss.value <= 100.0
    ensures loss.Some? ==> (loss.value == 0.0 <==> recv == sent)
  {
    if sent > 0 then
      var ratio := recv as real / sent as real;
      assert ratio * sent as real == recv as real;
      assert 0.0 <= ratio;
      assert recv <= sent ==> ratio <= 1.0;
      assert ratio == 1.0 <==> recv == sent;
      Some((1.0 - ratio) * 100.0)
    else None
  }

  function RowFor(ip: string, s: HostStats): TableRow {
    TableRow(ip, if s.lastAlive then Up else Down, s.lastRtt, s.sent, s.recv, LossPercent(s.sent, s.recv), s.lastChecked)
  }

  /** A host never probed, or probed only before a reset, shows no probes, DOWN and no loss. */
  lemma UnseenRow(stats: map<string, HostStats>, ip: string)
    requires ip !in stats
    ensures RowFor(ip, Lookup(stats, ip)) == TableRow(ip, Down, None, 0, 0, None, "")
  {
  }

  // ---------------------------------------------------------------------
  // The host list (line 127)
  // ---------------------------------------------------------------------

  /** The characters at which Python's `str.splitlines` ends a line. */
  predicate IsLineBoundary(c: char) {
    c == '\n' || c == '\r' || c == '\U{b}' || c == '\U{c}' || '\U{1c}' <= c <= '\U{1e}'
    || c == '\U{85}' || c == '\U{2028}' || c == '\U{2029}'
  }

  /** Index of the first line boundary, or `|s|`. */
  function LineEnd(s: string): (e: nat)
    ensures e <= |s|
    ensures forall k :: 0 <= k < e ==> !IsLineBoundary(s[k])
    ensures e < |s| ==> IsLineBoundary(s[e])
  {
    if s == [] || IsLineBoundary(s[0]) then 0 else 1 + LineEnd(s[1..])
  }

  /** Python's `s.splitlines()`: `\r\n` ends one line, and a final boundary opens no empty line. */
  function SplitLines(s: string): (lines: seq<string>)
    ensures forall k, j :: 0 <= k < |lines| && 0 <= j < |lines[k]| ==> !IsLineBoundary(lines[k][j])
    decreases |s|
  {
    if s == [] then []
    else
      var e := LineEnd(s);
      if e == |s| then [s]
      else
        var next := if s[e] == '\r' && e + 1 < |s| && s[e + 1] == '\n' then e + 2 else e + 1;
        [s[..e]] + SplitLines(s[next..])
  }

  /** The comprehension `[l.strip() for l in lines if l.strip()]`. */
  function KeepHosts(lines: seq<string>): seq<string> {
    if lines == [] then []
    else
      var h := Strip(lines[0]);
      (if h == "" then [] else [h]) + KeepHosts(lines[1..])
  }

  /** Every kept host is non-empty and already stripped, and no line yields more than one host. */
  lemma {:induction false} KeepHostsClean(lines: seq<string>)
    ensures |KeepHosts(lines)| <= |lines|
    ensures forall k :: 0 <= k < |KeepHosts(lines)| ==> KeepHosts(lines)[k] != "" && Strip(KeepHosts(lines)[k]) == KeepHosts(lines)[k]
  {
    if lines != [] {
      var h := Strip(lines[0]);
      var head := if h == "" then [] else [h];
      var rest := KeepHosts(lines[1..]);
      KeepHostsClean(lines[1..]);
      assert KeepHosts(lines) == head + rest;
      if h != "" {
        StripUnchanged(h);
      }
      forall k | 0 <= k < |head + rest| ensures (head + rest)[k] != "" && Strip((head + rest)[k]) == (head + rest)[k] {
        if k < |head| {
          assert (head + rest)[k] == h;
        } else {
          assert (head + rest)[k] == rest[k - |head|];
        }
      }
    }
  }

  /** Line 127: the hosts typed in the text area, one per line, trimmed, blank lines dropped. */
  function NormaliseHosts(text: string): (hosts: seq<string>)
    ensures forall k :: 0 <= k < |hosts| ==> hosts[k] != "" && Strip(hosts[k]) == hosts[k]
  {
    KeepHostsClean(SplitLines(text));
    KeepHosts(SplitLines(text))
  }

  /** A host token: not empty, no surrounding whitespace, no line break. */
  predicate IsHostToken(h: string) {
    h != "" && !IsSpace(h[0]) && !IsSpace(h[|h| - 1]) && forall k :: 0 <= k < |h| ==> !IsLineBoundary(h[k])
  }

  lemma {:induction false} KeepHostsOfTokens(hosts: seq<string>)
    requires forall k :: 0 <= k < |hosts| ==> IsHostToken(hosts[k])
    ensures KeepHosts(hosts) == hosts
  {
    if hosts != [] {
      StripUnchanged(hosts[0]);
      KeepHostsOfTokens(hosts[1..]);
    }
  }

  /** The first line of `h + [c] + rest` is `h` when `c` is the first boundary. */
  lemma {:induction false} LineEndAt(h: string, c: char, rest: string)
    requires IsLineBoundary(c) && forall k :: 0 <= k < |h| ==> !IsLineBoundary(h[k])
    ensures LineEnd(h + [c] + rest) == |h|
  {
    if h != [] {
      assert (h + [c] + rest)[1..] == h[1..] + [c] + rest;
      LineEndAt(h[1..], c, rest);
    }
  }

  lemma {:induction false} SplitLinesOfJoin(hosts: seq<string>)
    requires forall k :: 0 <= k < |hosts| ==> IsHostToken(hosts[k])
    ensures SplitLines(Join(hosts, '\n')) == hosts
  {
    if |hosts| == 1 {
      assert LineEnd(hosts[0]) == |hosts[0]|;
    } else if |hosts| > 1 {
      var h := hosts[0];
      var rest := Join(hosts[1..], '\n');
      var s := h + ['\n'] + rest;
      assert Join(hosts, '\n') == s;
      LineEndAt(h, '\n', rest);
      assert s[..|h|] == h && s[|h| + 1..] == rest;
      SplitLinesOfJoin(hosts[1..]);
      assert [h] + hosts[1..] == hosts;
    }
  }

  /**
   * Host tokens written one per line come back in the same order with
   * their duplicates: normalisation drops nothing but blank lines and
   * surrounding whitespace.
   */
  lemma NormaliseJoinedHosts(hosts: seq<string>)
    requires forall k :: 0 <= k < |hosts| ==> IsHostToken(hosts[k])
    ensures NormaliseHosts(Join(hosts, '\n')) == hosts
  {
    SplitLinesOfJoin(hosts);
    KeepHostsOfTokens(hosts);
  }

  /** Lines that are empty or all whitespace contribute no host. */
  lemma {:induction false} BlankLinesDropped(lines: seq<string>, blank: string)
    requires forall k :: 0 <= k < |blank| ==> IsSpace(blank[k])
    ensures KeepHosts([blank] + lines) == KeepHosts(lines)
  {
    StripEmpty(blank);
    assert ([blank] + lines)[1..] == lines;
  }

  // ---------------------------------------------------------------------
  // The session
  // ---------------------------------------------------------------------

  /** `st.session_state` as far as the dashboard's logic uses it. */
  class Dashboard {
    var stats: map<string, HostStats>
    var lastRefresh: real
    var autoRefresh: bool
    var interval: int

    ghost predicate Valid()
      reads this
    {
      Consistent(stats)
    }

    /** Lines 63-70: the defaults of a new session. */
    constructor ()
      ensures Valid()
      ensures stats == map[] && lastRefresh == 0.0 && !autoRefresh && interval == 3
    {
      stats := map[];
      lastRefresh := 0.0;
      autoRefresh := false;
      interval := 3;
    }

    /** Lines 74-75: the sidebar checkbox and slider write these two keys. */
    method SetControls(auto: bool, seconds: int)
      requires Valid()
      modifies this
      ensures Valid() && autoRefresh == auto && interval == seconds
      ensures stats == old(stats) && lastRefresh == old(lastRefresh)
    {
      autoRefresh := auto;
      interval := seconds;
    }

    /** Lines 76-77: "Reset contadores" forgets every host. */
    method Reset()
      requires Valid()
      modifies this
      ensures Valid() && stats == map[]
      ensures lastRefresh == old(lastRefresh) && autoRefresh == old(autoRefresh) && interval == old(interval)
    {
      stats := map[];
    }

    /** `update_stats`: fold one round into the stats, row by row. */
    method UpdateStats(ms: seq<Measurement>, now: string)
      requires Valid()
      modifies this
      ensures Valid() && stats == Fold(old(stats), ms, now)
      ensures lastRefresh == old(lastRefresh) && autoRefresh == old(autoRefresh) && interval == old(interval)
    {
      var k := 0;
      while k < |ms|
        invariant 0 <= k <= |ms|
        invariant stats == Fold(old(stats), ms[..k], now)
        invariant lastRefresh == old(lastRefresh) && autoRefresh == old(autoRefresh) && interval == old(interval)
      {
        var row := ms[k];
        var s := Lookup(stats, row.ip);
        s := s.(sent := s.sent + 1);
        if row.alive {
          s := s.(recv := s.recv + 1, lastRtt := row.rttMs);
        }
        s := s.(lastAlive := row.alive, lastChecked := now);
        stats := stats[row.ip := s];
        assert ms[..k + 1][..k] == ms[..k];
        k := k + 1;
      }
      assert ms[..|ms|] == ms;
      FoldConsistent(old(stats), ms, now);
    }

    /**
     * `do_measurement`: with hosts listed, one round whose measurements
     * `ms` are those of the listed hosts in completion order.
     */
    method DoMeasurement(ips: seq<string>, ms: seq<Measurement>, now: string)
      requires Valid()
      requires multiset(HostsOf(ms)) == multiset(ips)
      modifies this
      ensures Valid() && stats == Fold(old(stats), ms, now)
      ensures lastRefresh == old(lastRefresh) && autoRefresh == old(autoRefresh) && interval == old(interval)
    {
      if ips == [] {
        assert |ms| == |HostsOf(ms)| == |multiset(HostsOf(ms))| == 0;
        return;
      }
      UpdateStats(ms, now);
    }

    /**
     * Lines 134-137: a round runs only when auto-refresh is on and at
     * least `interval` seconds have passed since the last automatic round,
     * which then moves to `nowTs`.
     */
    method AutoRefresh(ips: seq<string>, ms: seq<Measurement>, nowTs: real, now: string) returns (ran: bool)
      requires Valid()
      requires multiset(HostsOf(ms)) == multiset(ips)
      modifies this
      ensures Valid()
      ensures ran <==> old(autoRefresh) && nowTs - old(lastRefresh) >= old(interval) as real
      ensures ran ==> stats == Fold(old(stats), ms, now) && lastRefresh == nowTs
      ensures !ran ==> stats == old(stats) && lastRefresh == old(lastRefresh)
      ensures autoRefresh == old(autoRefresh) && interval == old(interval)
    {
      ran := autoRefresh && nowTs - lastRefresh >= interval as real;
      if ran {
        DoMeasurement(ips, ms, now);
        lastRefresh := nowTs;
      }
    }

    /**
     * `build_table`: one row per listed host, in list order and with
     * duplicates; status, counters and loss as the stats give them.
     */
    method BuildTable(ips: seq<string>) returns (rows: seq<TableRow>)
      requires Valid()
      ensures |rows| == |ips|
      ensures forall k :: 0 <= k < |ips| ==> rows[k] == RowFor(ips[k], Lookup(stats, ips[k]))
      ensures forall k :: 0 <= k < |ips| ==>
        && rows[k].host == ips[k]
        && (rows[k].status == Up <==> Lookup(stats, ips[k]).lastAlive)
        && rows[k].sent == Lookup(stats, ips[k]).sent && rows[k].recv == Lookup(stats, ips[k]).recv
        && (rows[k].lossPct.Some? <==> rows[k].sent > 0)
        && (rows[k].lossPct.Some? ==> 0.0 <= rows[k].lossPct.value <= 100.0)
    {
      rows := [];
      for k := 0 to |ips|
        invariant |rows| == k
        invariant forall j :: 0 <= j < k ==> rows[j] == RowFor(ips[j], Lookup(stats, ips[j]))
      {
        var s := Lookup(stats, ips[k]);
        var loss := if s.sent > 0 then Some((1.0 - s.recv as real / s.sent as real) * 100.0) else None;
        rows := rows + [TableRow(ips[k], if s.lastAlive then Up else Down, s.lastRtt, s.sent, s.recv, loss, s.lastChecked)];
      }
    }
  }
}
