/** Day 20 (Pulse Propagation): a network of broadcaster, flip-flop and
    conjunction modules wired by name, read from "name -> a, b" lines, and
    one press of the button: a low pulse into the broadcaster, after which
    pulses are delivered in the order they were sent. */
module PulseNetwork {
  import opened Wrappers
  import opened Text

  datatype Pulse = Low | High

  datatype Signal = Signal(from: string, to: string, pulse: Pulse)

  /** The three module kinds with their state: a flip-flop is on or off, a
      conjunction remembers the last pulse from each of its inputs. */
  datatype Kind = Broadcaster | FlipFlop(on: bool) | Conjunction(last: map<string, Pulse>)

  /** A module: its `Sender` (name and receivers, in wiring order) and its kind. */
  datatype Module = Module(name: string, receivers: seq<string>, kind: Kind)

  type Modules = map<string, Module>

  // ---------------------------------------------------------------------------
  // Modules

  /** `Sender::send`: one signal per receiver, in receiver order, each from
      the sender and carrying the same pulse. */
  function Send(name: string, receivers: seq<string>, pulse: Pulse): (r: seq<Signal>)
    ensures |r| == |receivers|
    ensures forall i :: 0 <= i < |r| ==> r[i] == Signal(name, receivers[i], pulse)
  {
    if receivers == [] then []
    else [Signal(name, receivers[0], pulse)] + Send(name, receivers[1..], pulse)
  }

  /** The pulse a conjunction sends: low exactly when every remembered input
      is high. */
  function Verdict(last: map<string, Pulse>): (r: Pulse)
    ensures r == Low <==> forall n :: n in last ==> last[n] == High
  {
    if forall n :: n in last ==> last[n] == High then Low else High
  }

  /** `Module::process` for the three kinds: the module's next state and the
      signals it sends. A broadcaster forwards the pulse; a flip-flop ignores
      a high pulse and on a low one toggles and sends high when it is now on
      and low when it is now off; a conjunction records the sender's pulse and
      then sends its verdict. */
  function Process(m: Module, sig: Signal): (r: (Module, seq<Signal>))
    ensures r.0.name == m.name && r.0.receivers == m.receivers
    ensures r.0.kind.Broadcaster? == m.kind.Broadcaster?
    ensures r.0.kind.FlipFlop? == m.kind.FlipFlop?
    ensures r.0.kind.Conjunction? ==> m.kind.Conjunction? && r.0.kind.last.Keys == m.kind.last.Keys + {sig.from}
    ensures r.1 == [] || r.1 == Send(m.name, m.receivers, r.1[0].pulse)
    ensures m.kind.Broadcaster? ==> r == (m, Send(m.name, m.receivers, sig.pulse))
    ensures m.kind.FlipFlop? && sig.pulse == High ==> r == (m, [])
    ensures m.kind.FlipFlop? && sig.pulse == Low ==> r.0.kind.on == !m.kind.on
    ensures !(m.kind.FlipFlop? && sig.pulse == High) ==> |r.1| == |m.receivers|
    ensures m.kind.FlipFlop? && sig.pulse == Low && |m.receivers| > 0 ==> (r.1[0].pulse == High <==> r.0.kind.on)
    ensures m.kind.Conjunction? ==> r.0.kind.last == m.kind.last[sig.from := sig.pulse]
    ensures m.kind.Conjunction? && |m.receivers| > 0
      ==> (r.1[0].pulse == Low <==> forall n :: n in r.0.kind.last ==> r.0.kind.last[n] == High)
  {
    match m.kind
    case Broadcaster => (m, Send(m.name, m.receivers, sig.pulse))
    case FlipFlop(on) =>
      if sig.pulse == High then (m, [])
      else
        var now := !on;
        var p := if now then High else Low;
        (m.(kind := FlipFlop(now)), Send(m.name, m.receivers, p))
    case Conjunction(last) =>
      var last' := last[sig.from := sig.pulse];
      var p := Verdict(last');
      (m.(kind := Conjunction(last')), Send(m.name, m.receivers, p))
  }

  /** Low pulses fed to a flip-flop one after another: its final state and
      the pulses it sends, one per input. */
  function FeedFlipFlop(m: Module, n: nat): (r: (Module, seq<Pulse>))
    requires m.kind.FlipFlop?
    ensures r.0.kind.FlipFlop? && |r.1| == n
    decreases n
  {
    if n == 0 then (m, [])
    else
      var (m', out) := Process(m, Signal("", m.name, Low));
      var rest := FeedFlipFlop(m', n - 1);
      (rest.0, [if m'.kind.on then High else Low] + rest.1)
  }

  /** A flip-flop that starts off is on after an odd number of low pulses and
      off after an even number; its `k`-th answer is high exactly when `k` is
      odd (counting from one), so the answers alternate high, low, high. */
  lemma {:induction false} FlipFlopAlternates(m: Module, n: nat)
    requires m.kind.FlipFlop?
    ensures FeedFlipFlop(m, n).0.kind.on == (m.kind.on != (n % 2 == 1))
    ensures forall k :: 0 <= k < n ==>
      (FeedFlipFlop(m, n).1[k] == High <==> (m.kind.on != (k % 2 == 0)))
    decreases n
  {
    if n > 0 {
      var m' := Process(m, Signal("", m.name, Low)).0;
      FlipFlopAlternates(m', n - 1);
      var rest := FeedFlipFlop(m', n - 1);
      assert FeedFlipFlop(m, n).1 == [if m'.kind.on then High else Low] + rest.1;
      forall k | 0 <= k < n
        ensures FeedFlipFlop(m, n).1[k] == High <==> (m.kind.on != (k % 2 == 0))
      {
        if k > 0 {
          assert FeedFlipFlop(m, n).1[k] == rest.1[k - 1];
        }
      }
    }
  }

  /** Signals fed to a conjunction one after another; its final state. */
  function FeedConjunction(m: Module, sigs: seq<Signal>): (r: Module)
    requires m.kind.Conjunction?
    ensures r.kind.Conjunction?
    decreases |sigs|
  {
    if sigs == [] then m else FeedConjunction(Process(m, sigs[0]).0, sigs[1..])
  }

  /** The last pulse `n` sent among `sigs`, if it sent any. */
  function LastFrom(sigs: seq<Signal>, n: string): Option<Pulse>
  {
    if sigs == [] then None
    else if sigs[|sigs| - 1].from == n then Some(sigs[|sigs| - 1].pulse)
    else LastFrom(sigs[..|sigs| - 1], n)
  }

  /** A conjunction remembers, for every input, the last pulse that input sent
      it, and otherwise what it remembered before; it learns of exactly the
      inputs that sent it something. */
  lemma {:induction false} ConjunctionRemembers(m: Module, sigs: seq<Signal>, n: string)
    requires m.kind.Conjunction?
    ensures var last := FeedConjunction(m, sigs).kind.last;
      (n in last <==> n in m.kind.last || LastFrom(sigs, n).Some?)
      && (LastFrom(sigs, n).Some? ==> last[n] == LastFrom(sigs, n).value)
      && (LastFrom(sigs, n).None? && n in m.kind.last ==> last[n] == m.kind.last[n])
    decreases |sigs|
  {
    if sigs != [] {
      var k := |sigs| - 1;
      var init := sigs[..k];
      FeedLast(m, sigs);
      ConjunctionRemembers(m, init, n);
    }
  }

  /** Feeding a list of signals is feeding all but the last and then the last. */
  lemma {:induction false} FeedLast(m: Module, sigs: seq<Signal>)
    requires m.kind.Conjunction? && sigs != []
    ensures FeedConjunction(m, sigs)
      == Process(FeedConjunction(m, sigs[..|sigs| - 1]), sigs[|sigs| - 1]).0
    decreases |sigs|
  {
    if |sigs| > 1 {
      var m' := Process(m, sigs[0]).0;
      FeedLast(m', sigs[1..]);
      assert sigs[1..][..|sigs[1..]| - 1] == sigs[..|sigs| - 1][1..];
    }
  }

  // ---------------------------------------------------------------------------
  // Parsing

  /** The network before any line is read: the broadcaster, with no receivers. */
  const Unwired: Modules := map["broadcaster" := Module("broadcaster", [], Broadcaster)]

  /** The module a line declares: "%name" a flip-flop that is off, "&name" a
      conjunction that remembers nothing yet; any other line declares none. */
  function Declaration(line: string): (r: Option<Module>)
    ensures r.Some? ==> r.value.receivers == []
    ensures r.Some? && r.value.kind.FlipFlop? ==> !r.value.kind.on
    ensures r.Some? && r.value.kind.Conjunction? ==> r.value.kind.last == map[]
    ensures r.Some? ==> r.value.kind.FlipFlop? || r.value.kind.Conjunction?
  {
    var name := Split(line, " -> ")[0];
    match StripPrefix(name, "%")
    case Some(n) => Some(Module(n, [], FlipFlop(false)))
    case None =>
      match StripPrefix(name, "&")
      case Some(n) => Some(Module(n, [], Conjunction(map[])))
      case None => None
  }

  /** The first loop of `Modules::parse` over the first `|lines|` lines: each
      declaration inserted under its name, a later one replacing an earlier. */
  function DeclareAll(lines: seq<string>): Modules
  {
    if lines == [] then Unwired
    else
      var mods := DeclareAll(lines[..|lines| - 1]);
      match Declaration(lines[|lines| - 1])
      case None => mods
      case Some(m) => mods[m.name := m]
  }

  /** The last declaration of `n` among the lines, if any. */
  function LastDeclared(lines: seq<string>, n: string): (r: Option<Module>)
    ensures r.Some? ==> r.value.name == n && r.value.receivers == [] && !r.value.kind.Broadcaster?
    ensures r.Some? && r.value.kind.FlipFlop? ==> !r.value.kind.on
    ensures r.Some? && r.value.kind.Conjunction? ==> r.value.kind.last == map[]
  {
    if lines == [] then None
    else
      var d := Declaration(lines[|lines| - 1]);
      if d.Some? && d.value.name == n then d else LastDeclared(lines[..|lines| - 1], n)
  }

  /** After the first loop, the modules are the broadcaster and the declared
      ones, each stored under its own name as the last line declaring it
      says, with no receivers yet. */
  lemma {:induction false} DeclareAllSpec(lines: seq<string>, n: string)
    ensures var mods := DeclareAll(lines);
      (n in mods <==> n == "broadcaster" || LastDeclared(lines, n).Some?)
      && (LastDeclared(lines, n).Some? ==> mods[n] == LastDeclared(lines, n).value)
      && (n in mods && LastDeclared(lines, n).None? ==> mods[n] == Unwired["broadcaster"])
  {
    if lines != [] {
      DeclareAllSpec(lines[..|lines| - 1], n);
    }
  }

  /** One line of wiring: the sending module's name and its receivers. */
  datatype Wire = Wire(source: string, targets: seq<string>)

  /** The second loop's reading of a line: the text before " -> " without its
      first character (the "%" or "&"), except for "broadcaster", and the
      ", "-separated receivers after it. An empty name or a line without
      " -> " panics, which is `None` here. */
  function ParseWire(line: string): (r: Option<Wire>)
  {
    var pieces := Split(line, " -> ");
    var name := pieces[0];
    if name != "broadcaster" && |name| == 0 then None
    else if |pieces| < 2 then None
    else Some(Wire(if name == "broadcaster" then name else name[1..], Split(pieces[1], ", ")))
  }

  /** `collect` into an `Option`: every element present, or nothing. */
  function CollectWires(os: seq<Option<Wire>>): (r: Option<seq<Wire>>)
    ensures r.Some? <==> forall i :: 0 <= i < |os| ==> os[i].Some?
    ensures r.Some? ==> (|r.value| == |os|
      && forall i :: 0 <= i < |os| ==> os[i] == Some(r.value[i]))
  {
    if os == [] then Some([])
    else
      match os[0]
      case None => None
      case Some(b) =>
        match CollectWires(os[1..])
        case None => None
        case Some(bs) => Some([b] + bs)
  }

  function ParseWires(lines: seq<string>): (r: Option<seq<Wire>>)
    ensures r.Some? <==> forall i :: 0 <= i < |lines| ==> ParseWire(lines[i]).Some?
    ensures r.Some? ==> (|r.value| == |lines|
      && forall i :: 0 <= i < |lines| ==> ParseWire(lines[i]) == Some(r.value[i]))
  {
    var os := seq(|lines|, i requires 0 <= i < |lines| => ParseWire(lines[i]));
    assert forall i :: 0 <= i < |lines| ==> os[i] == ParseWire(lines[i]);
    CollectWires(os)
  }

  /** One receiver of the second loop: a conjunction receiver remembers a low
      pulse from the source, then the source, if it is a module, gains the
      receiver. */
  function Connect(mods: Modules, source: string, target: string): (r: Modules)
    ensures r.Keys == mods.Keys
  {
    var mods' :=
      if target in mods && mods[target].kind.Conjunction?
      then mods[target := mods[target].(kind := Conjunction(mods[target].kind.last[source := Low]))]
      else mods;
    if source in mods' then mods'[source := mods'[source].(receivers := mods'[source].receivers + [target])]
    else mods'
  }

  /** The receivers of one line, in order. */
  function ConnectAll(mods: Modules, source: string, targets: seq<string>): (r: Modules)
    ensures r.Keys == mods.Keys
  {
    if targets == [] then mods
    else Connect(ConnectAll(mods, source, targets[..|targets| - 1]), source, targets[|targets| - 1])
  }

  /** The second loop of `Modules::parse`, over the lines' wiring in order. */
  function WireAll(mods: Modules, ws: seq<Wire>): (r: Modules)
    ensures r.Keys == mods.Keys
  {
    if ws == [] then mods
    else
      var w := ws[|ws| - 1];
      ConnectAll(WireAll(mods, ws[..|ws| - 1]), w.source, w.targets)
  }

  /** `Modules::parse`. */
  function Parse(s: string): Option<Modules>
  {
    var lines := Lines(s);
    match ParseWires(lines)
    case None => None
    case Some(ws) => Some(WireAll(DeclareAll(lines), ws))
  }

  // Reference definitions of what the wiring gives each module.

  /** The receivers of `n`: the targets of every line whose source is `n`,
      in line order. */
  function Outputs(ws: seq<Wire>, n: string): seq<string>
  {
    if ws == [] then []
    else
      var w := ws[|ws| - 1];
      Outputs(ws[..|ws| - 1], n) + (if w.source == n then w.targets else [])
  }

  /** The inputs of `n`: the source of every line that lists `n` among its
      targets. */
  function Inputs(ws: seq<Wire>, n: string): set<string>
  {
    if ws == [] then {}
    else
      var w := ws[|ws| - 1];
      Inputs(ws[..|ws| - 1], n) + (if n in w.targets then {w.source} else {})
  }

  /** Two modules of the same kind and flip-flop state. */
  predicate SameKind(a: Module, b: Module)
  {
    a.name == b.name
      && a.kind.Broadcaster? == b.kind.Broadcaster?
      && a.kind.FlipFlop? == b.kind.FlipFlop?
      && a.kind.Conjunction? == b.kind.Conjunction?
      && (a.kind.FlipFlop? ==> a.kind.on == b.kind.on)
  }

  /** A conjunction memory of low pulses only. */
  predicate AllLow(last: map<string, Pulse>)
  {
    forall k :: k in last ==> last[k] == Low
  }

  /** `ConnectAllSpec` for one receiver. */
  lemma ConnectSpec(mods: Modules, source: string, target: string, n: string)
    requires n in mods
    ensures var r := Connect(mods, source, target);
      SameKind(r[n], mods[n])
      && r[n].receivers == mods[n].receivers + (if source == n then [target] else [])
      && (mods[n].kind.Conjunction? ==>
            r[n].kind.last.Keys == mods[n].kind.last.Keys + (if n == target then {source} else {})
            && (AllLow(mods[n].kind.last) ==> AllLow(r[n].kind.last)))
  {
  }

  /** What wiring does to one module `n`: it keeps its kind and state, gains
      the targets as receivers when it is the source, and, when it is a
      conjunction among the targets, remembers a low pulse from the source. */
  lemma {:induction false} ConnectAllSpec(mods: Modules, source: string, targets: seq<string>, n: string)
    requires n in mods
    ensures var r := ConnectAll(mods, source, targets);
      SameKind(r[n], mods[n])
      && r[n].receivers == mods[n].receivers + (if source == n then targets else [])
      && (mods[n].kind.Conjunction? ==>
            r[n].kind.last.Keys == mods[n].kind.last.Keys + (if n in targets then {source} else {})
            && (AllLow(mods[n].kind.last) ==> AllLow(r[n].kind.last)))
  {
    if targets != [] {
      var init, last := targets[..|targets| - 1], targets[|targets| - 1];
      ConnectAllSpec(mods, source, init, n);
      ConnectSpec(ConnectAll(mods, source, init), source, last, n);
      assert init + [last] == targets;
      assert n in targets <==> n in init || n == last;
    }
  }

  /** What the whole second loop does to one module `n`. */
  lemma {:induction false} WireAllSpec(mods: Modules, ws: seq<Wire>, n: string)
    requires n in mods
    ensures var r := WireAll(mods, ws);
      SameKind(r[n], mods[n])
      && r[n].receivers == mods[n].receivers + Outputs(ws, n)
      && (mods[n].kind.Conjunction? ==>
            r[n].kind.last.Keys == mods[n].kind.last.Keys + Inputs(ws, n)
            && (AllLow(mods[n].kind.last) ==> AllLow(r[n].kind.last)))
  {
    if ws != [] {
      var w := ws[|ws| - 1];
      WireAllSpec(mods, ws[..|ws| - 1], n);
      ConnectAllSpec(WireAll(mods, ws[..|ws| - 1]), w.source, w.targets, n);
    }
  }

  /** `Modules::parse`: the broadcaster is always present; every other module
      is declared by a line, with the kind of the last line declaring it and
      flip-flops off; its receivers are the targets of the lines it sources,
      in order; and a conjunction remembers a low pulse from exactly the
      sources of the lines that list it. */
  lemma ParseSpec(s: string, n: string)
    requires Parse(s).Some?
    ensures "broadcaster" in Parse(s).value
    ensures var mods := Parse(s).value;
      var lines := Lines(s);
      var ws := ParseWires(lines).value;
      (n in mods <==> n == "broadcaster" || LastDeclared(lines, n).Some?)
      && (n in mods ==> mods[n].name == n && mods[n].receivers == Outputs(ws, n))
      && (n in mods && LastDeclared(lines, n).None? ==> mods[n].kind.Broadcaster?)
      && (n in mods && mods[n].kind.FlipFlop? ==> !mods[n].kind.on)
      && (n in mods && mods[n].kind.Conjunction? ==>
            mods[n].kind.last.Keys == Inputs(ws, n) && AllLow(mods[n].kind.last))
  {
    var lines := Lines(s);
    var ws := ParseWires(lines).value;
    assert Parse(s).value == WireAll(DeclareAll(lines), ws);
    NetworkSpec(lines, ws, n);
    NetworkSpec(lines, ws, "broadcaster");
  }

  /** The same facts for the network built from given lines and wiring. */
  lemma NetworkSpec(lines: seq<string>, ws: seq<Wire>, n: string)
    ensures var mods := WireAll(DeclareAll(lines), ws);
      "broadcaster" in mods
      && (n in mods <==> n == "broadcaster" || LastDeclared(lines, n).Some?)
      && (n in mods ==> mods[n].name == n && mods[n].receivers == Outputs(ws, n))
      && (n in mods && LastDeclared(lines, n).None? ==> mods[n].kind.Broadcaster?)
      && (n in mods && mods[n].kind.FlipFlop? ==> !mods[n].kind.on)
      && (n in mods && mods[n].kind.Conjunction? ==>
            mods[n].kind.last.Keys == Inputs(ws, n) && AllLow(mods[n].kind.last))
  {
    var declared := DeclareAll(lines);
    DeclareAllSpec(lines, n);
    DeclareAllSpec(lines, "broadcaster");
    if n in declared {
      WireAllSpec(declared, ws, n);
    }
  }

  // ---------------------------------------------------------------------------
  // One press of the button

  /** The first signals of `start`: the broadcaster sends a low pulse to all
      its receivers. When "broadcaster" names a module of another kind (a
      line "%broadcaster" replaced it), nothing is sent. */
  function Initial(mods: Modules): (r: seq<Signal>)
    requires "broadcaster" in mods
    ensures mods["broadcaster"].kind.Broadcaster? ==> r == Send(mods["broadcaster"].name, mods["broadcaster"].receivers, Low)
    ensures !mods["broadcaster"].kind.Broadcaster? ==> r == []
  {
    var b := mods["broadcaster"];
    if b.kind.Broadcaster? then Send(b.name, b.receivers, Low) else []
  }

  /** Delivering one signal: the addressed module processes it and is updated
      in place; a signal to a name with no module changes nothing and
      produces nothing. */
  function Deliver(mods: Modules, sig: Signal): (r: (Modules, seq<Signal>))
    ensures r.0.Keys == mods.Keys
    ensures sig.to !in mods ==> r == (mods, [])
    ensures forall n :: n in mods && n != sig.to ==> r.0[n] == mods[n]
  {
    if sig.to in mods then
      var (m, out) := Process(mods[sig.to], sig);
      (mods[sig.to := m], out)
    else (mods, [])
  }

  /** The state of the delivery loop after it stops: the modules, the
      signals delivered in order, the signals still queued, and every signal
      the deliveries produced, in order. */
  datatype Outcome = Outcome(modules: Modules, delivered: seq<Signal>, pending: seq<Signal>, emitted: seq<Signal>)

  /** The delivery loop of `start` on queue `q`, for at most `fuel`
      deliveries: take the front signal, deliver it, queue what it produces
      at the back. */
  function Run(mods: Modules, q: seq<Signal>, fuel: nat): (r: Outcome)
    decreases fuel
  {
    if fuel == 0 || q == [] then Outcome(mods, [], q, [])
    else
      var (mods', out) := Deliver(mods, q[0]);
      var r := Run(mods', q[1..] + out, fuel - 1);
      Outcome(r.modules, [q[0]] + r.delivered, r.pending, out + r.emitted)
  }

  /** One pass of the loop. */
  lemma RunStep(mods: Modules, q: seq<Signal>, fuel: nat)
    requires fuel > 0 && q != []
    ensures var d := Deliver(mods, q[0]);
      var rest := Run(d.0, q[1..] + d.1, fuel - 1);
      Run(mods, q, fuel) == Outcome(rest.modules, [q[0]] + rest.delivered, rest.pending, d.1 + rest.emitted)
  {
  }

  /** The queue is first in, first out: the signals delivered followed by
      those still queued are the starting queue followed by everything the
      deliveries produced. The loop stops only when the queue is empty or the
      fuel is spent. */
  lemma {:induction false} RunFifo(mods: Modules, q: seq<Signal>, fuel: nat)
    ensures var r := Run(mods, q, fuel);
      r.delivered + r.pending == q + r.emitted
      && (r.pending == [] || |r.delivered| == fuel)
      && |r.delivered| <= fuel
    decreases fuel
  {
    if fuel > 0 && q != [] {
      var d := Deliver(mods, q[0]);
      RunStep(mods, q, fuel);
      RunFifo(d.0, q[1..] + d.1, fuel - 1);
      var rest := Run(d.0, q[1..] + d.1, fuel - 1);
      FifoStep(q, d.1, rest.delivered, rest.pending, rest.emitted);
    }
  }

  lemma FifoStep(q: seq<Signal>, out: seq<Signal>, delivered: seq<Signal>, pending: seq<Signal>, emitted: seq<Signal>)
    requires q != []
    requires delivered + pending == q[1..] + out + emitted
    ensures [q[0]] + delivered + pending == q + (out + emitted)
  {
    calc {
      [q[0]] + delivered + pending;
      [q[0]] + (delivered + pending);
      [q[0]] + (q[1..] + out + emitted);
      [q[0]] + q[1..] + (out + emitted);
      { assert [q[0]] + q[1..] == q; }
      q + (out + emitted);
    }
  }

  /** The number of signals carrying `p`. */
  function Count(sigs: seq<Signal>, p: Pulse): (r: nat)
    ensures r <= |sigs|
  {
    if sigs == [] then 0
    else Count(sigs[..|sigs| - 1], p) + (if sigs[|sigs| - 1].pulse == p then 1 else 0)
  }

  /** Every signal is low or high, so the two counts add up to the number of
      signals. */
  lemma {:induction false} CountBoth(sigs: seq<Signal>)
    ensures Count(sigs, Low) + Count(sigs, High) == |sigs|
  {
    if sigs != [] {
      CountBoth(sigs[..|sigs| - 1]);
    }
  }

  /** A low pulse addressed to "rx" is among the signals. */
  predicate ReachesRx(sigs: seq<Signal>)
  {
    exists i :: 0 <= i < |sigs| && sigs[i].to == "rx" && sigs[i].pulse == Low
  }

  lemma CountAppend(sigs: seq<Signal>, sig: Signal, p: Pulse)
    ensures Count(sigs + [sig], p) == Count(sigs, p) + (if sig.pulse == p then 1 else 0)
  {
    assert (sigs + [sig])[..|sigs|] == sigs;
  }

  lemma RxAppend(sigs: seq<Signal>, sig: Signal)
    ensures ReachesRx(sigs + [sig]) <==> ReachesRx(sigs) || (sig.to == "rx" && sig.pulse == Low)
  {
    var s := sigs + [sig];
    if sig.to == "rx" && sig.pulse == Low {
      assert s[|sigs|] == sig;
    }
    if ReachesRx(sigs) {
      var i :| 0 <= i < |sigs| && sigs[i].to == "rx" && sigs[i].pulse == Low;
      assert s[i] == sigs[i];
    }
    if ReachesRx(s) {
      var i :| 0 <= i < |s| && s[i].to == "rx" && s[i].pulse == Low;
      if i < |sigs| {
        assert sigs[i] == s[i];
      }
    }
  }

  /** The loop's outcome seen from part-way through: what was delivered and
      emitted so far, followed by the rest of the run. */
  function Resume(delivered: seq<Signal>, emitted: seq<Signal>, rest: Outcome): Outcome
  {
    Outcome(rest.modules, delivered + rest.delivered, rest.pending, emitted + rest.emitted)
  }

  lemma ResumeStep(delivered: seq<Signal>, emitted: seq<Signal>, mods: Modules, q: seq<Signal>, fuel: nat)
    requires fuel > 0 && q != []
    ensures var d := Deliver(mods, q[0]);
      Resume(delivered, emitted, Run(mods, q, fuel))
        == Resume(delivered + [q[0]], emitted + d.1, Run(d.0, q[1..] + d.1, fuel - 1))
  {
    var d := Deliver(mods, q[0]);
    var rest := Run(d.0, q[1..] + d.1, fuel - 1);
    RunStep(mods, q, fuel);
    assert delivered + ([q[0]] + rest.delivered) == delivered + [q[0]] + rest.delivered;
    assert emitted + (d.1 + rest.emitted) == emitted + d.1 + rest.emitted;
  }

  /** What `Modules::start` knows part-way through its loop. */
  ghost predicate StartState(whole: Outcome, cur: Modules, q: seq<Signal>, left: nat,
                             delivered: seq<Signal>, emitted: seq<Signal>,
                             low: int, high: int, sentToRx: bool)
  {
    && whole == Resume(delivered, emitted, Run(cur, q, left))
    && low == 1 + Count(delivered, Low) && high == Count(delivered, High)
    && (sentToRx <==> ReachesRx(delivered))
  }

  /** One turn of the loop keeps `StartState`. */
  lemma StartStep(whole: Outcome, cur: Modules, q: seq<Signal>, left: nat,
                  delivered: seq<Signal>, emitted: seq<Signal>,
                  low: int, high: int, sentToRx: bool)
    requires left > 0 && q != []
    requires StartState(whole, cur, q, left, delivered, emitted, low, high, sentToRx)
    ensures var sig := q[0];
      var d := Deliver(cur, sig);
      StartState(whole, d.0, q[1..] + d.1, left - 1, delivered + [sig], emitted + d.1,
                 if sig.pulse == Low then low + 1 else low,
                 if sig.pulse == High then high + 1 else high,
                 sentToRx || (sig.to == "rx" && sig.pulse == Low))
  {
    ResumeStep(delivered, emitted, cur, q, left);
    CountAppend(delivered, q[0], Low);
    CountAppend(delivered, q[0], High);
    RxAppend(delivered, q[0]);
  }

  /** `Modules::start` with the loop bounded by `fuel` deliveries: the low
      count starts at 1 for the button's pulse, every delivered signal bumps
      the counter of its pulse, and `sentToRx` records whether a low pulse to
      "rx" was delivered. The other results are the loop's final state. */
  method Start(mods: Modules, fuel: nat) returns (low: int, high: int, sentToRx: bool, r: Outcome)
    requires "broadcaster" in mods
    ensures r == Run(mods, Initial(mods), fuel)
    ensures low == 1 + Count(r.delivered, Low) && high == Count(r.delivered, High)
    ensures low + high == 1 + |r.delivered|
    ensures sentToRx <==> ReachesRx(r.delivered)
  {
    var q := Initial(mods);
    var cur := mods;
    var delivered: seq<Signal> := [];
    var emitted: seq<Signal> := [];
    var steps: nat := 0;
    low, high, sentToRx := 1, 0, false;
    ghost var whole := Run(mods, q, fuel);
    assert Resume([], [], whole) == whole;
    while steps < fuel && q != []
      invariant steps <= fuel
      invariant StartState(whole, cur, q, fuel - steps, delivered, emitted, low, high, sentToRx)
      decreases fuel - steps
    {
      var sig := q[0];
      StartStep(whole, cur, q, fuel - steps, delivered, emitted, low, high, sentToRx);
      if sig.pulse == Low {
        low := low + 1;
      } else {
        high := high + 1;
      }
      if sig.to == "rx" && sig.pulse == Low {
        sentToRx := true;
      }
      var d := Deliver(cur, sig);
      delivered := delivered + [sig];
      emitted := emitted + d.1;
      q := q[1..] + d.1;
      cur := d.0;
      steps := steps + 1;
    }
    r := Outcome(cur, delivered, q, emitted);
    assert Run(cur, q, fuel - steps) == Outcome(cur, [], q, []);
    CountBoth(delivered);
  }
}
