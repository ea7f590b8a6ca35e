/**
 The buffered migration file: a rate-limited output buffer in front of a backend
 that may take part of what it is given, ask to be tried again, or fail.
 */
module BufferedFile {
  import opened Wire

  const EAGAIN := -11
  const EINVAL := -22

  // ---- how many bytes go where ------------------------------------------------------

  /** The backend's answers to come; a backend with no answer left fails (0). */
  type Script = seq<int>

  function Answer(script: Script, n: nat): (ret: int)
    ensures ret <= n
  {
    if script == [] then 0 else if script[0] > n then n else script[0]
  }

  function Later(script: Script): Script {
    if script == [] then [] else script[1..]
  }

  /** The outcome of a loop of writes: bytes taken, answers left, why it ended. */
  datatype Outcome = Outcome(sent: nat, script: Script, frozen: bool, error: bool)

  /** buffered_flush with n bytes in the buffer. */
  function Flushed(script: Script, n: nat): (o: Outcome)
    ensures o.sent <= n && |o.script| <= |script| && !(o.frozen && o.error)
    ensures o.sent < n <==> o.frozen || o.error
    ensures n > 0 ==> if script == [] then o.error else |o.script| < |script|
    decreases n
  {
    if n == 0 then Outcome(0, script, false, false)
    else
      var ret := Answer(script, n);
      if ret == EAGAIN then Outcome(0, Later(script), true, false)
      else if ret <= 0 then Outcome(0, Later(script), false, true)
      else
        var o := Flushed(Later(script), n - ret);
        o.(sent := ret + o.sent)
  }

  /** The direct writes of buffered_put_buffer: n bytes still to put, xfer bytes
      already transferred in this period. */
  function Direct(script: Script, n: nat, xfer: nat, limit: nat): (o: Outcome)
    ensures o.sent <= n && |o.script| <= |script| && !(o.frozen && o.error)
    ensures o.sent == n ==> !o.frozen && !o.error
    ensures o.sent < n ==> o.frozen || o.error || xfer + o.sent > limit
    decreases n
  {
    if n == 0 || xfer > limit then Outcome(0, script, false, false)
    else
      var ret := Answer(script, n);
      if ret == EAGAIN then Outcome(0, Later(script), true, false)
      else if ret <= 0 then Outcome(0, Later(script), false, true)
      else
        var o := Direct(Later(script), n - ret, xfer + ret, limit);
        o.(sent := ret + o.sent)
  }

  lemma FlushedStep(script: Script, n: nat)
    ensures Flushed(script, n) ==
            if n == 0 then Outcome(0, script, false, false)
            else
              var ret := Answer(script, n);
              if ret == EAGAIN then Outcome(0, Later(script), true, false)
              else if ret <= 0 then Outcome(0, Later(script), false, true)
              else
                var o := Flushed(Later(script), n - ret);
                o.(sent := ret + o.sent)
  {
  }

  lemma DirectStep(script: Script, n: nat, xfer: nat, limit: nat)
    ensures Direct(script, n, xfer, limit) ==
            if n == 0 || xfer > limit then Outcome(0, script, false, false)
            else
              var ret := Answer(script, n);
              if ret == EAGAIN then Outcome(0, Later(script), true, false)
              else if ret <= 0 then Outcome(0, Later(script), false, true)
              else
                var o := Direct(Later(script), n - ret, xfer + ret, limit);
                o.(sent := ret + o.sent)
  {
  }

  // ---- the file as a value, and what each operation makes of it -------------------------

  datatype File = File(script: Script, accepted: seq<byte>, held: seq<byte>, error: bool, frozen: bool, xfer: nat, limit: nat) {
    /** What the backend has taken, followed by what is still held. */
    function Stream(): seq<byte> {
      accepted + held
    }
  }

  function FlushStep(f: File): File {
    if f.error then f
    else
      var o := Flushed(f.script, |f.held|);
      f.(script := o.script, accepted := f.accepted + f.held[..o.sent], held := f.held[o.sent..],
         error := o.error, frozen := f.frozen || o.frozen)
  }

  /** The direct writes after the flush g of a put. */
  function PutOutcome(g: File, n: nat): (o: Outcome)
    ensures o.sent <= n
  {
    if g.frozen then Outcome(0, g.script, false, false) else Direct(g.script, n, g.xfer, g.limit)
  }

  function PutStep(f: File, data: seq<byte>): File {
    if f.error then f
    else
      var g := FlushStep(f.(frozen := false));
      var o := PutOutcome(g, |data|);
      g.(script := o.script, accepted := g.accepted + data[..o.sent],
         held := g.held + (if o.error then [] else data[o.sent..]),
         error := g.error || o.error, frozen := g.frozen || o.frozen, xfer := g.xfer + o.sent)
  }

  /** One tick of the rate timer; a file with an error is closed as it is. */
  function TickStep(f: File): File {
    if f.error || f.frozen then f else FlushStep(f.(xfer := 0))
  }

  /** A tick of a file without error that is not frozen starts a new period and
      flushes: the budget is whole again, and nothing is left in the buffer unless
      the backend stopped taking bytes. */
  lemma TickFlushes(f: File)
    requires !f.error && !f.frozen
    ensures var g, o := TickStep(f), Flushed(f.script, |f.held|);
            && g.xfer == 0 && g.limit == f.limit
            && g.accepted == f.accepted + f.held[..o.sent] && g.held == f.held[o.sent..]
            && (g.held != [] <==> g.frozen || g.error) && g.frozen == o.frozen && g.error == o.error
    ensures f.held == [] ==> TickStep(f) == f.(xfer := 0)
  {
    assert f.held[0..] == f.held && f.held[..0] == [];
    assert f.accepted + [] == f.accepted;
  }

  /** A tick of a file that has an error or waits for its backend does nothing. */
  lemma TickWaits(f: File)
    requires f.error || f.frozen
    ensures TickStep(f) == f
  {
  }

  /** A put does not ask whether the file was frozen, and does nothing after an error. */
  lemma PutUnfreezes(f: File, data: seq<byte>, frozen: bool)
    ensures !f.error ==> PutStep(f.(frozen := frozen), data) == PutStep(f, data)
    ensures f.error ==> PutStep(f, data) == f
  {
  }

  /** What the answers offer to take. */
  function Offered(script: Script): nat {
    if script == [] then 0 else (if script[0] > 0 then script[0] else 0) + Offered(script[1..])
  }

  /** The outcome o of a loop of writes over n bytes: the bytes taken are those the
      answers used offered, as far as there are any; every answer before the last
      took bytes, and the last tells why the loop ended: EAGAIN freezes, any other
      answer that is not positive, or none at all, is an error. */
  ghost predicate Explained(script: Script, n: nat, o: Outcome) {
    var used := |script| - |o.script|;
    && 0 <= used && o.script == script[used..]
    && o.sent == (if Offered(script[..used]) < n then Offered(script[..used]) else n)
    && (forall i :: 0 <= i < used - 1 ==> script[i] > 0)
    && (o.frozen <==> used > 0 && script[used - 1] == EAGAIN)
    && (o.error ==> o.script == [] || (used > 0 && script[used - 1] <= 0 && script[used - 1] != EAGAIN))
    && (!o.frozen && !o.error && used > 0 ==> script[used - 1] > 0)
  }

  /** One more answer that took bytes in front of an explained outcome. */
  lemma ExplainedMore(script: Script, n: nat, o: Outcome)
    requires script != [] && script[0] > 0 && n > 0
    requires var ret := Answer(script, n); Explained(script[1..], n - ret, o) && o.sent <= n - ret && |o.script| <= |script| - 1
    ensures Explained(script, n, o.(sent := Answer(script, n) + o.sent))
  {
    var used := |script| - |o.script|;
    assert script[..used][1..] == script[1..][..used - 1];
    assert script[1..][used - 1..] == script[used..];
  }

  lemma {:induction false} FlushStops(script: Script, n: nat)
    ensures Explained(script, n, Flushed(script, n))
    decreases n
  {
    hide Explained;
    if n > 0 && Answer(script, n) > 0 {
      FlushStops(script[1..], n - Answer(script, n));
      ExplainedMore(script, n, Flushed(script[1..], n - Answer(script, n)));
    } else {
      StoppedAtOnce(script, n);
    }
  }

  lemma StoppedAtOnce(script: Script, n: nat)
    requires n > 0 ==> Answer(script, n) <= 0
    ensures Explained(script, n, Flushed(script, n))
  {
    assert script[0..] == script && script[..0] == [];
    if n > 0 && script != [] {
      assert script[..1] == [script[0]] && Offered([script[0]][1..]) == 0;
    }
  }

  lemma DirectUnfolds(script: Script, n: nat, xfer: nat, limit: nat)
    ensures n == 0 || xfer > limit ==> Direct(script, n, xfer, limit) == Outcome(0, script, false, false)
    ensures n > 0 && xfer <= limit && Answer(script, n) > 0 ==>
              var o := Direct(Later(script), n - Answer(script, n), xfer + Answer(script, n), limit);
              Direct(script, n, xfer, limit) == o.(sent := Answer(script, n) + o.sent)
    ensures n > 0 && xfer <= limit && Answer(script, n) <= 0 ==> Direct(script, n, xfer, limit) == Flushed(script, n)
  {
  }

  /** The same for the direct writes of a put. */
  lemma {:induction false} DirectStops(script: Script, n: nat, xfer: nat, limit: nat)
    ensures Explained(script, n, Direct(script, n, xfer, limit))
    decreases n
  {
    hide Explained, Direct, Flushed;
    DirectUnfolds(script, n, xfer, limit);
    if n == 0 || xfer > limit {
      NotTried(script, n);
    } else {
      var ret := Answer(script, n);
      if ret > 0 {
        DirectStops(script[1..], n - ret, xfer + ret, limit);
        ExplainedMore(script, n, Direct(script[1..], n - ret, xfer + ret, limit));
      } else {
        StoppedAtOnce(script, n);
      }
    }
  }

  /** Within the limit direct writes are a flush of the new data; beyond it none is tried. */
  lemma {:induction false} DirectIsFlush(script: Script, n: nat, xfer: nat, limit: nat)
    ensures xfer + n <= limit + 1 ==> Direct(script, n, xfer, limit) == Flushed(script, n)
    ensures xfer > limit ==> Direct(script, n, xfer, limit) == Outcome(0, script, false, false)
    decreases n
  {
    if n > 0 && xfer <= limit {
      var ret := Answer(script, n);
      if ret > 0 {
        DirectIsFlush(script[1..], n - ret, xfer + ret, limit);
      }
    }
  }

  lemma FlushAfterError(f: File)
    requires f.error
    ensures FlushStep(f) == f
  {
  }

  /** A put uses the answers one after the other, first for what is held and then for
      the new data, and leaves the file frozen exactly if the last one was EAGAIN. */
  lemma PutUses(f: File, data: seq<byte>)
    requires !f.error
    ensures var p := PutStep(f, data);
            var used := |f.script| - |p.script|;
            && 0 <= used && p.script == f.script[used..]
            && (p.frozen <==> used > 0 && f.script[used - 1] == EAGAIN)
  {
    hide Flushed, Direct;
    var g := FlushStep(f.(frozen := false));
    var a := |f.script| - |g.script|;
    FlushStops(f.script, |f.held|);
    if !g.frozen {
      DirectStops(g.script, |data|, g.xfer, g.limit);
      var o := Direct(g.script, |data|, g.xfer, g.limit);
      var b := |g.script| - |o.script|;
      assert f.script[a..][b..] == f.script[a + b..];
      assert b > 0 ==> g.script[b - 1] == f.script[a + b - 1];
    }
  }

  lemma NotTried(script: Script, n: nat)
    ensures Explained(script, n, Outcome(0, script, false, false))
  {
    assert script[0..] == script && script[..0] == [];
  }

  /** The drain loop of buffered_close, for a backend whose answers come to an end. */
  function CloseStep(f: File): (g: File)
    ensures g.error || g.held == []
    decreases |f.script|, if f.error then 0 else 1
  {
    if f.error || f.held == [] then f else CloseStep(FlushStep(f))
  }

  // ---- order of bytes ---------------------------------------------------------------------

  lemma FlushKeepsStream(f: File)
    ensures FlushStep(f).Stream() == f.Stream()
    ensures f.accepted <= FlushStep(f).accepted
  {
    hide Flushed;
    if !f.error {
      var n := Flushed(f.script, |f.held|).sent;
      assert f.held == f.held[..n] + f.held[n..];
    }
  }

  lemma {:induction false} CloseKeepsStream(f: File)
    ensures CloseStep(f).Stream() == f.Stream()
    decreases |f.script|, if f.error then 0 else 1
  {
    hide Flushed;
    if !f.error && f.held != [] {
      FlushKeepsStream(f);
      CloseKeepsStream(FlushStep(f));
    }
  }

  /** A put that ends without error puts exactly the data at the end of the stream. */
  lemma PutAppends(f: File, data: seq<byte>)
    requires !PutStep(f, data).error
    ensures PutStep(f, data).Stream() == f.Stream() + data
  {
    hide Flushed, Direct;
    var g := FlushStep(f.(frozen := false));
    FlushKeepsStream(f.(frozen := false));
    Rejoins(g.accepted, g.held, data, PutOutcome(g, |data|).sent);
  }

  lemma Rejoins(a: seq<byte>, h: seq<byte>, d: seq<byte>, k: nat)
    requires k <= |d| && (h == [] || k == 0)
    ensures a + d[..k] + (h + d[k..]) == a + h + d
  {
    assert d == d[..k] + d[k..];
    if h == [] {
      assert a + h == a && h + d[k..] == d[k..];
    } else {
      assert a + d[..k] == a;
    }
  }

  /** The caller's data alone, in the order it was put. */
  datatype Event = Put(data: seq<byte>) | Tick | Close

  function Step(f: File, e: Event): File {
    match e
    case Put(data) => PutStep(f, data)
    case Tick => TickStep(f)
    case Close => CloseStep(f)
  }

  function Run(f: File, es: seq<Event>): File {
    if es == [] then f else Step(Run(f, es[..|es| - 1]), es[|es| - 1])
  }

  function AllPut(es: seq<Event>): seq<byte> {
    if es == [] then [] else AllPut(es[..|es| - 1]) + (if es[|es| - 1].Put? then es[|es| - 1].data else [])
  }

  lemma ErrorStays(f: File, e: Event)
    requires f.error
    ensures Step(f, e) == f
  {
  }

  lemma StepAppends(f: File, e: Event)
    requires !Step(f, e).error
    ensures Step(f, e).Stream() == f.Stream() + (if e.Put? then e.data else [])
  {
    hide Flushed, Direct, PutStep, CloseStep;
    match e
    case Put(data) => PutAppends(f, data);
    case Tick => FlushKeepsStream(f.(xfer := 0));
    case Close => CloseKeepsStream(f);
  }

  /** First in, first out, over every run and every backend: as long as no error
      was recorded, what the backend took followed by what is held is exactly what
      was put; and a close then leaves nothing behind. */
  lemma {:induction false} RunIsFifo(f: File, es: seq<Event>)
    requires f.Stream() == []
    requires !Run(f, es).error
    ensures Run(f, es).Stream() == AllPut(es)
    ensures es != [] && es[|es| - 1].Close? ==> Run(f, es).accepted == AllPut(es)
  {
    hide Flushed, Direct, PutStep, CloseStep, TickStep;
    if es != [] {
      var g := Run(f, es[..|es| - 1]);
      if g.error {
        ErrorStays(g, es[|es| - 1]);
      }
      RunIsFifo(f, es[..|es| - 1]);
      StepAppends(g, es[|es| - 1]);
    }
  }

  // ---- the transfer limit ----------------------------------------------------------------------

  /** The budget counts exactly the bytes a put writes past the buffer; beyond the
      limit it writes none, and it never exceeds the limit by more than its data. */
  lemma PutKeepsRate(f: File, data: seq<byte>)
    requires !f.error
    ensures var flushed, g := FlushStep(f.(frozen := false)), PutStep(f, data);
            && g.xfer - f.xfer == |g.accepted| - |flushed.accepted|
            && (f.xfer > f.limit ==> g.accepted == flushed.accepted)
            && g.xfer <= (if f.xfer > f.limit then f.xfer else f.limit + |data|)
            && g.limit == f.limit
  {
    hide Flushed, Direct;
    var flushed := FlushStep(f.(frozen := false));
    DirectStep(flushed.script, |data|, f.xfer, f.limit);
    assert data[..0] == [];
  }

  // ---- when a put that meets an error still keeps the order --------------------------------

  /** A put of n bytes with `held` bytes waiting, for a given backend and budget. */
  datatype Setting = Setting(script: Script, held: nat, n: nat, xfer: nat, limit: nat)

  function FileOf(s: Setting, accepted: seq<byte>, held: seq<byte>): File {
    File(s.script, accepted, held, false, false, s.xfer, s.limit)
  }

  /** What the put transfers directly, after its flush. */
  function DirectOf(s: Setting): Outcome {
    var f := Flushed(s.script, s.held);
    if f.frozen then Outcome(0, f.script, false, false) else Direct(f.script, s.n, s.xfer, s.limit)
  }

  /** No byte is lost or overtaken, whatever the bytes are. */
  ghost predicate KeepsOrder(s: Setting) {
    forall a: seq<byte>, h: seq<byte>, d: seq<byte> :: |h| == s.held && |d| == s.n ==>
      PutStep(FileOf(s, a, h), d).Stream() == a + h + d
  }

  /** A put keeps the order of bytes exactly when its direct writes do not fail
      and do not overtake held bytes: the code goes on to write new data even
      after the flush in front has failed. */
  lemma OrderExactly(s: Setting)
    ensures KeepsOrder(s) <==>
            !DirectOf(s).error && (Flushed(s.script, s.held).sent == s.held || DirectOf(s).sent == 0)
  {
    hide Flushed, Direct;
    var f, p := Flushed(s.script, s.held), DirectOf(s);
    if !p.error && (f.sent == s.held || p.sent == 0) {
      forall a: seq<byte>, h: seq<byte>, d: seq<byte> | |h| == s.held && |d| == s.n
        ensures PutStep(FileOf(s, a, h), d).Stream() == a + h + d
      {
        FlushKeepsStream(FileOf(s, a, h));
        Rejoins(a + h[..f.sent], h[f.sent..], d, p.sent);
      }
    } else {
      Overtaken(s);
    }
  }

  lemma Overtaken(s: Setting)
    requires DirectOf(s).error || (Flushed(s.script, s.held).sent < s.held && DirectOf(s).sent > 0)
    ensures !KeepsOrder(s)
  {
    hide Flushed, Direct;
    var f, p := Flushed(s.script, s.held), DirectOf(s);
    var h, d := seq(s.held, i => 0), seq(s.n, i => 1);
    var t := PutStep(FileOf(s, [], h), d).Stream();
    assert t == h[..f.sent] + d[..p.sent] + (h[f.sent..] + (if p.error then [] else d[p.sent..]));
    if p.error {
      assert |t| < |[] + h + d|;
    } else {
      assert t[f.sent] == d[0] == 1;
      assert ([] + h + d)[f.sent] == h[f.sent] == 0;
    }
  }

  /** The flush of one held byte fails, and the next write, of the new byte, succeeds. */
  lemma OvertakingExample()
    ensures !KeepsOrder(Setting([0, 1], 1, 1, 0, 10))
  {
    var s := Setting([0, 1], 1, 1, 0, 10);
    assert Flushed([0, 1], 1) == Outcome(0, [1], false, true) by {
      assert Later([0, 1]) == [1];
    }
    DirectStep([1], 1, 0, 10);
    OrderExactly(s);
  }

  // ---- what a caller can know beforehand --------------------------------------------------

  /** Nothing overtakes: the backend has taken a prefix of the stream, whatever the bytes are. */
  ghost predicate NoOvertaking(s: Setting) {
    forall a: seq<byte>, h: seq<byte>, d: seq<byte> :: |h| == s.held && |d| == s.n ==>
      PutStep(FileOf(s, a, h), d).accepted <= a + h + d
  }

  /** Nothing is dropped: the bytes taken and held are as many as went in. */
  ghost predicate NothingDropped(s: Setting) {
    forall a: seq<byte>, h: seq<byte>, d: seq<byte> :: |h| == s.held && |d| == s.n ==>
      |PutStep(FileOf(s, a, h), d).Stream()| == |a| + |h| + |d|
  }

  /** Over every backend nothing overtakes exactly when nothing is held, nothing is
      put, or the period's budget is used up, so that no direct write is tried. */
  lemma NoOvertakingExactly(held: nat, n: nat, xfer: nat, limit: nat)
    ensures (forall script: Script :: NoOvertaking(Setting(script, held, n, xfer, limit)))
            <==> held == 0 || n == 0 || xfer > limit
  {
    hide NoOvertaking;
    if held == 0 || n == 0 || xfer > limit {
      forall script: Script ensures NoOvertaking(Setting(script, held, n, xfer, limit)) {
        InOrder(Setting(script, held, n, xfer, limit));
      }
    } else {
      Overtakes(held, n, xfer, limit);
    }
  }

  lemma InOrder(s: Setting)
    requires s.held == 0 || s.n == 0 || s.xfer > s.limit
    ensures NoOvertaking(s)
  {
    hide Flushed, Direct;
    DirectStep(Flushed(s.script, s.held).script, s.n, s.xfer, s.limit);
    var f, p := Flushed(s.script, s.held), DirectOf(s);
    forall a: seq<byte>, h: seq<byte>, d: seq<byte> | |h| == s.held && |d| == s.n
      ensures PutStep(FileOf(s, a, h), d).accepted <= a + h + d
    {
      Prefixes(a, h, d, f.sent, p.sent);
    }
  }

  lemma Prefixes(a: seq<byte>, h: seq<byte>, d: seq<byte>, n: nat, k: nat)
    requires n <= |h| && k <= |d| && (n == |h| || k == 0)
    ensures a + h[..n] + d[..k] <= a + h + d
  {
    var t, u := a + h[..n] + d[..k], a + h + d;
    assert forall i :: 0 <= i < |t| ==> t[i] == u[i];
  }

  /** A backend that fails the flush and then takes one byte. */
  lemma Overtakes(held: nat, n: nat, xfer: nat, limit: nat)
    requires held > 0 && n > 0 && xfer <= limit
    ensures !NoOvertaking(Setting([0, 1], held, n, xfer, limit))
  {
    var s := Setting([0, 1], held, n, xfer, limit);
    assert Later([0, 1]) == [1] && Later([1]) == [];
    FlushedStep([0, 1], held);
    DirectStep([1], n, xfer, limit);
    hide Flushed, Direct;
    var h, d := seq(held, i => 0), seq(n, i => 1);
    var t := PutStep(FileOf(s, [], h), d).accepted;
    assert t == [] + h[..0] + d[..DirectOf(s).sent];
    assert t[0] == 1 && ([] + h + d)[0] == 0;
  }

  /** Over every backend nothing is dropped exactly when no direct write is tried:
      a direct write that fails drops the rest of the caller's data. */
  lemma NothingDroppedExactly(held: nat, n: nat, xfer: nat, limit: nat)
    ensures (forall script: Script :: NothingDropped(Setting(script, held, n, xfer, limit)))
            <==> n == 0 || xfer > limit
  {
    hide NothingDropped;
    if n == 0 || xfer > limit {
      forall script: Script ensures NothingDropped(Setting(script, held, n, xfer, limit)) {
        KeptAll(Setting(script, held, n, xfer, limit));
      }
    } else {
      Drops(held, n, xfer, limit);
    }
  }

  lemma KeptAll(s: Setting)
    requires s.n == 0 || s.xfer > s.limit
    ensures NothingDropped(s)
  {
    hide Flushed, Direct;
    DirectStep(Flushed(s.script, s.held).script, s.n, s.xfer, s.limit);
  }

  /** A backend that fails at once, in the flush and in the direct write. */
  lemma Drops(held: nat, n: nat, xfer: nat, limit: nat)
    requires n > 0 && xfer <= limit
    ensures !NothingDropped(Setting([], held, n, xfer, limit))
  {
    var s := Setting([], held, n, xfer, limit);
    FlushedStep([], held);
    DirectStep([], n, xfer, limit);
    hide Flushed, Direct;
    var h, d := seq(held, i => 0), seq(n, i => 1);
    assert |PutStep(FileOf(s, [], h), d).Stream()| < held + n;
  }

  // ---- when a close comes to an end ------------------------------------------------------------

  /** A backend that never stops answering. */
  type Backends = nat -> int

  /** What the drain loop has left of `held` bytes after n answers, or its error. */
  datatype Drain = Drain(left: nat, error: bool)

  function Drained(answers: Backends, held: nat, n: nat): (d: Drain)
    ensures d.left <= held
  {
    if n == 0 then Drain(held, false)
    else
      Taken(Drained(answers, held, n - 1), answers(n - 1))
  }

  /** One more answer. */
  function Taken(d: Drain, ret: int): (r: Drain)
    ensures r.left <= d.left
  {
    if d.error || d.left == 0 || ret == EAGAIN then d
    else if ret <= 0 then d.(error := true)
    else d.(left := if ret > d.left then 0 else d.left - ret)
  }

  /** The loop is through: nothing is held, or an error is recorded. */
  predicate Through(d: Drain) {
    d.error || d.left == 0
  }

  ghost predicate Ends(answers: Backends, held: nat) {
    exists n: nat :: Through(Drained(answers, held, n))
  }

  ghost predicate OnlyEagain(answers: Backends, p: nat) {
    forall q: nat :: q >= p ==> answers(q) == EAGAIN
  }

  /** The drain loop of buffered_close ends unless at some point, with bytes still
      held and no error, the backend begins to answer EAGAIN for ever. */
  lemma CloseEndsExactly(answers: Backends, held: nat)
    ensures Ends(answers, held) <==>
            !exists p: nat :: OnlyEagain(answers, p) && !Through(Drained(answers, held, p))
  {
    hide OnlyEagain;
    if p: nat :| OnlyEagain(answers, p) && !Through(Drained(answers, held, p)) {
      forall n: nat ensures !Through(Drained(answers, held, n)) {
        if n <= p {
          ThroughStays(answers, held, n, p);
        } else {
          Stuck(answers, held, p, n);
        }
      }
    } else if !Ends(answers, held) {
      assert !Through(Drained(answers, held, 0));
      var p := GetsStuck(answers, held, 0);
    }
  }

  function NeverReady(n: nat): int {
    EAGAIN
  }

  /** One held byte and a backend that is never ready: the loop does not end. */
  lemma NeverEndsExample()
    ensures !Ends(NeverReady, 1)
  {
    assert OnlyEagain(NeverReady, 0) && !Through(Drained(NeverReady, 1, 0));
    CloseEndsExactly(NeverReady, 1);
  }

  lemma {:induction false} ThroughStays(answers: Backends, held: nat, n: nat, p: nat)
    requires n <= p
    ensures Through(Drained(answers, held, n)) ==> Drained(answers, held, p) == Drained(answers, held, n)
    decreases p
  {
    if n < p {
      ThroughStays(answers, held, n, p - 1);
    }
  }

  lemma {:induction false} Stuck(answers: Backends, held: nat, p: nat, n: nat)
    requires p <= n && OnlyEagain(answers, p)
    ensures Drained(answers, held, n) == Drained(answers, held, p)
    decreases n
  {
    if p < n {
      Stuck(answers, held, p, n - 1);
    }
  }

  /** A loop that never ends takes bytes only finitely often. */
  lemma {:induction false} GetsStuck(answers: Backends, held: nat, p: nat) returns (at: nat)
    requires !Ends(answers, held)
    ensures OnlyEagain(answers, at) && !Through(Drained(answers, held, at))
    decreases Drained(answers, held, p).left
  {
    if OnlyEagain(answers, p) {
      at := p;
    } else {
      var q: nat :| q >= p && answers(q) != EAGAIN;
      Shrinks(answers, held, p, q);
      assert !Through(Drained(answers, held, q)) && !Through(Drained(answers, held, q + 1));
      at := GetsStuck(answers, held, q + 1);
    }
  }

  lemma {:induction false} Shrinks(answers: Backends, held: nat, p: nat, q: nat)
    requires p <= q
    ensures Drained(answers, held, q).left <= Drained(answers, held, p).left
    decreases q
  {
    if p < q {
      Shrinks(answers, held, p, q - 1);
    }
  }

  /** The same over a finite number of answers, from the front. */
  function RunOut(script: Script, d: Drain): Drain {
    if script == [] then d else RunOut(script[1..], Taken(d, script[0]))
  }

  /** The first n answers of a backend. */
  function Front(answers: Backends, n: nat): (s: Script)
    ensures |s| == n && forall i :: 0 <= i < n ==> s[i] == answers(i)
  {
    seq(n, i requires 0 <= i => answers(i))
  }

  lemma {:induction false} RunOutSnoc(script: Script, ret: int, d: Drain)
    ensures RunOut(script + [ret], d) == Taken(RunOut(script, d), ret)
    decreases |script|
  {
    hide Taken;
    if script == [] {
      assert [ret][1..] == [];
    } else {
      assert (script + [ret])[1..] == script[1..] + [ret];
      RunOutSnoc(script[1..], ret, Taken(d, script[0]));
    }
  }

  lemma {:induction false} DrainedRunsOut(answers: Backends, held: nat, n: nat)
    ensures Drained(answers, held, n) == RunOut(Front(answers, n), Drain(held, false))
  {
    hide Taken;
    if n > 0 {
      DrainedRunsOut(answers, held, n - 1);
      assert Front(answers, n) == Front(answers, n - 1) + [answers(n - 1)];
      RunOutSnoc(Front(answers, n - 1), answers(n - 1), Drain(held, false));
    }
  }

  lemma {:induction false} RunOutThrough(script: Script, d: Drain)
    requires Through(d)
    ensures RunOut(script, d) == d
    decreases |script|
  {
    if script != [] {
      RunOutThrough(script[1..], d);
    }
  }

  /** One flush takes the answers up to a freeze, or as many as it needs. */
  lemma {:induction false} FlushRunsOut(script: Script, n: nat)
    requires Through(RunOut(script, Drain(n, false))) || Flushed(script, n).frozen
    ensures var o := Flushed(script, n);
            RunOut(script, Drain(n, false)) == if o.frozen then RunOut(o.script, Drain(n - o.sent, false))
                                               else Drain(n - o.sent, o.error)
    decreases n
  {
    hide RunOut;
    FlushedStep(script, n);
    RunOutStep(script, Drain(n, false));
    if n == 0 {
      RunOutThrough(script, Drain(0, false));
    } else if script != [] {
      var ret := Answer(script, n);
      if ret != EAGAIN && ret <= 0 {
        RunOutThrough(script[1..], Drain(n, true));
      } else if ret > 0 {
        FlushRunsOut(script[1..], n - ret);
      }
    }
  }

  lemma RunOutStep(script: Script, d: Drain)
    ensures RunOut(script, d) == if script == [] then d else RunOut(script[1..], Taken(d, script[0]))
  {
  }

  /** Where the drain is through within the answers a backend gives, the close
      ends with what it has left, or with its error. */
  lemma {:induction false} CloseRunsOut(f: File)
    requires !f.error && Through(RunOut(f.script, Drain(|f.held|, false)))
    ensures var d := RunOut(f.script, Drain(|f.held|, false));
            CloseStep(f).error == d.error && |CloseStep(f).held| == d.left
    decreases |f.script|
  {
    hide Flushed, Taken, RunOut;
    if f.held == [] {
      RunOutThrough(f.script, Drain(0, false));
    } else {
      FlushRunsOut(f.script, |f.held|);
      if Flushed(f.script, |f.held|).frozen {
        CloseRunsOut(FlushStep(f));
      }
    }
  }

  /** A close over a backend that never stops answering, where the drain is through
      after n answers: the bytes held are delivered unless an error is recorded. */
  lemma CloseOver(answers: Backends, n: nat, f: File)
    requires !f.error && f.script == Front(answers, n) && Through(Drained(answers, |f.held|, n))
    ensures CloseStep(f).error == Drained(answers, |f.held|, n).error
    ensures !CloseStep(f).error ==> CloseStep(f).accepted == f.accepted + f.held
  {
    DrainedRunsOut(answers, |f.held|, n);
    CloseRunsOut(f);
    CloseKeepsStream(f);
  }

  // ---- the code ------------------------------------------------------------------------

  class Backend {
    var script: Script
    var accepted: seq<byte>

    /** put_buffer */
    method PutBuffer(buf: seq<byte>) returns (ret: int)
      modifies this
      ensures ret == Answer(old(script), |buf|) && script == Later(old(script))
      ensures accepted == old(accepted) + (if ret > 0 then buf[..ret] else [])
    {
      ret := Answer(script, |buf|);
      script := Later(script);
      if ret > 0 {
        accepted := accepted + buf[..ret];
      }
    }
  }

  class QemuFileBuffered {
    const backend: Backend
    var hasError: bool
    var freezeOutput: bool
    var bytesXfer: nat
    var xferLimit: nat
    var buffer: array<byte>
    var size: nat

    ghost predicate Valid()
      reads this
    {
      size <= buffer.Length
    }

    ghost function Abs(): File
      requires Valid()
      reads this, buffer, backend
    {
      File(backend.script, backend.accepted, buffer[..size], hasError, freezeOutput, bytesXfer, xferLimit)
    }

    /** qemu_fopen_ops_buffered */
    constructor (backend: Backend, bytesPerSec: nat)
      ensures Valid() && fresh(buffer) && this.backend == backend
      ensures Abs() == File(backend.script, backend.accepted, [], false, false, 0, bytesPerSec / 10)
    {
      this.backend := backend;
      hasError, freezeOutput, bytesXfer, xferLimit := false, false, 0, bytesPerSec / 10;
      buffer := new byte[0];
      size := 0;
    }

    /** buffered_append: the capacity grows by the data's size plus 1024 when it does not fit. */
    method Append(data: seq<byte>)
      requires Valid()
      modifies this`buffer, this`size, buffer
      ensures Valid() && Abs() == old(Abs()).(held := old(Abs()).held + data)
      ensures if |data| <= old(buffer.Length) - old(size) then buffer == old(buffer)
              else fresh(buffer) && buffer.Length == old(buffer.Length) + |data| + 1024
    {
      if |data| > buffer.Length - size {
        var tmp := new byte[buffer.Length + |data| + 1024];
        forall i | 0 <= i < size { tmp[i] := buffer[i]; }
        assert tmp[..size] == buffer[..size];
        buffer := tmp;
      }
      ghost var held := buffer[..size];
      forall i | 0 <= i < |data| { buffer[size + i] := data[i]; }
      size := size + |data|;
      assert buffer[..size] == held + data;
    }

    /** buffered_flush */
    method Flush()
      requires Valid()
      modifies this`hasError, this`freezeOutput, this`size, buffer, backend
      ensures Valid() && Abs() == FlushStep(old(Abs()))
    {
      hide Flushed;
      if hasError {
        return;
      }
      var offset := FlushWrites();
      ghost var held := buffer[..size];
      assert buffer[offset..size] == held[offset..];
      MoveDown(buffer, offset, size - offset);
      size := size - offset;
    }

    /** memmove of n bytes to the front. */
    static method MoveDown(a: array<byte>, from: nat, n: nat)
      requires from + n <= a.Length
      modifies a
      ensures a[..n] == old(a[from..from + n])
    {
      forall i | 0 <= i < n { a[i] := a[from + i]; }
    }

    /** The loop of buffered_flush; the result is what the backend took. */
    method FlushWrites() returns (offset: nat)
      requires Valid() && !hasError
      modifies this`hasError, this`freezeOutput, backend
      ensures Valid()
      ensures var o := Flushed(old(backend.script), size);
              && offset == o.sent
              && Abs() == old(Abs()).(script := o.script, accepted := old(Abs()).accepted + old(Abs()).held[..o.sent],
                                      error := o.error, frozen := old(freezeOutput) || o.frozen)
    {
      hide Flushed, Answer, Later;
      offset := 0;
      ghost var held, o := buffer[..size], Flushed(backend.script, size);
      ghost var acc := backend.accepted;
      while offset < size
        invariant 0 <= offset <= size && !hasError && freezeOutput == old(freezeOutput)
        invariant backend.accepted == acc + held[..offset]
        invariant var r := Flushed(backend.script, size - offset); o == r.(sent := offset + r.sent)
        decreases size - offset
      {
        FlushedStep(backend.script, size - offset);
        assert buffer[offset..size] == held[offset..];
        var ret := backend.PutBuffer(buffer[offset..size]);
        if ret == EAGAIN {
          freezeOutput := true;
          break;
        }
        if ret <= 0 {
          hasError := true;
          break;
        }
        assert held[..offset + ret] == held[..offset] + held[offset..][..ret];
        offset := offset + ret;
      }
      if offset == size {
        FlushedStep(backend.script, 0);
      }
    }

    /** buffered_put_buffer; the result is the caller's size, or -EINVAL. */
    method PutBuffer(data: seq<byte>) returns (ret: int)
      requires Valid()
      modifies this, buffer, backend
      ensures Valid() && Abs() == PutStep(old(Abs()), data)
      ensures buffer == old(buffer) || fresh(buffer)
      ensures ret == if old(hasError) || PutOutcome(FlushStep(old(Abs()).(frozen := false)), |data|).error
                     then EINVAL else |data|
    {
      hide Flushed, Direct, FlushStep;
      if hasError {
        return EINVAL;
      }
      freezeOutput := false;
      Flush();
      ghost var g := Abs();
      var offset := 0;
      if !freezeOutput {
        offset := DirectWrites(data);
      } else {
        assert data[..0] == [];
      }
      if offset >= 0 {
        Append(data[offset..]);
        return |data|;
      }
      ret := offset;
    }

    /** The loop of direct writes; the result is what was taken, or -EINVAL. */
    method DirectWrites(data: seq<byte>) returns (offset: int)
      requires Valid() && !freezeOutput
      modifies this`hasError, this`freezeOutput, this`bytesXfer, backend
      ensures Valid()
      ensures var o := Direct(old(backend.script), |data|, old(bytesXfer), xferLimit);
              && offset == (if o.error then EINVAL else o.sent)
              && Abs() == old(Abs()).(script := o.script, accepted := old(Abs()).accepted + data[..o.sent],
                                      error := old(hasError) || o.error, frozen := o.frozen,
                                      xfer := old(bytesXfer) + o.sent)
    {
      hide Direct, Answer, Later;
      offset := 0;
      ghost var o, acc := Direct(backend.script, |data|, bytesXfer, xferLimit), backend.accepted;
      while offset < |data|
        invariant 0 <= offset <= |data| && bytesXfer == old(bytesXfer) + offset
        invariant hasError == old(hasError) && !freezeOutput
        invariant backend.accepted == acc + data[..offset]
        invariant var r := Direct(backend.script, |data| - offset, bytesXfer, xferLimit);
                  o == r.(sent := offset + r.sent)
        decreases |data| - offset
      {
        DirectStep(backend.script, |data| - offset, bytesXfer, xferLimit);
        if bytesXfer > xferLimit {
          break;
        }
        var ret := backend.PutBuffer(data[offset..]);
        if ret == EAGAIN {
          freezeOutput := true;
          break;
        }
        if ret <= 0 {
          hasError := true;
          offset := EINVAL;
          break;
        }
        assert data[..offset + ret] == data[..offset] + data[offset..][..ret];
        offset := offset + ret;
        bytesXfer := bytesXfer + ret;
      }
      if offset == |data| {
        DirectStep(backend.script, 0, bytesXfer, xferLimit);
      }
    }

    /** The drain loop of buffered_close. */
    method Close()
      requires Valid()
      modifies this`hasError, this`freezeOutput, this`size, buffer, backend
      ensures Valid() && Abs() == CloseStep(old(Abs()))
    {
      hide Flushed;
      while !hasError && size > 0
        invariant Valid() && CloseStep(Abs()) == CloseStep(old(Abs()))
        decreases |backend.script|, if hasError then 0 else 1
      {
        Flush();
      }
    }

    /** buffered_rate_tick, without the callback that asks for more data. */
    method RateTick()
      requires Valid()
      modifies this`hasError, this`freezeOutput, this`size, this`bytesXfer, buffer, backend
      ensures Valid() && Abs() == TickStep(old(Abs()))
    {
      if hasError {
        Close();
        return;
      }
      if freezeOutput {
        return;
      }
      bytesXfer := 0;
      Flush();
    }

    /** buffered_rate_limit: whether the producer should pause. */
    method RateLimit() returns (wait: bool)
      requires Valid()
      ensures wait <==> !hasError && (freezeOutput || bytesXfer > xferLimit)
    {
      if hasError {
        return false;
      }
      if freezeOutput {
        return true;
      }
      wait := bytesXfer > xferLimit;
    }
  }
}
