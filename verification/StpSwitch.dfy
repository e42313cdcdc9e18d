/** One switch of the spanning tree protocol (lab4/04-stp/stp.c).

  The functions describe what each part of stp.c computes on the value of a
  switch; class Stp is the in-place form, proved against them.
*/
module StpSwitch {
  import opened Common

  const STP_MAX_PORTS: nat := 32
  const STP_PORT_PRIORITY: nat := 128
  const PATH_COST: nat := 1

  /** The four fields a port keeps and a config message carries. */
  datatype Vector = Vector(root: nat, cost: nat, sw: nat, port: nat)

  /** A config message leaving through port `port`. */
  datatype Packet = Packet(port: nat, vec: Vector)

  /** rootPort is an index into ports; None is the null pointer. */
  datatype Switch = Switch(id: nat, root: nat, cost: nat, rootPort: Option<nat>, ports: seq<Vector>, hello: bool)

  function PortId(i: nat): nat {
    STP_PORT_PRIORITY * 256 + i + 1
  }

  predicate SuperiorTo(v: Vector, w: Vector) {
    if v.root < w.root then true
    else if v.root > w.root then false
    else if v.cost < w.cost then true
    else if v.cost > w.cost then false
    else if v.sw < w.sw then true
    else if v.sw > w.sw then false
    else v.port < w.port
  }

  predicate IsRootSwitch(s: Switch) {
    s.root == s.id
  }

  predicate IsDesignated(s: Switch, q: nat)
    requires q < |s.ports|
  {
    s.ports[q].sw == s.id && s.ports[q].port == PortId(q)
  }

  /** What switch s sends through port q. */
  function Offer(s: Switch, q: nat): Vector {
    Vector(s.root, s.cost, s.id, PortId(q))
  }

  function Initial(id: nat, n: nat): Switch {
    Switch(id, id, 0, None, seq(n, (q: nat) => Vector(id, 0, id, PortId(q))), true)
  }

  function SendConfig(s: Switch, q: nat): seq<Packet> {
    if !IsRootSwitch(s) && s.rootPort.None? then [] else [Packet(q, Offer(s, q))]
  }

  /** What stp_send_config emits from the first k ports. */
  function SendConfigs(s: Switch, k: nat): seq<Packet>
    requires k <= |s.ports|
  {
    if k == 0 then []
    else SendConfigs(s, k - 1) + (if IsDesignated(s, k - 1) then SendConfig(s, k - 1) else [])
  }

  /** The vector a candidate is compared with: the fourth component is the
      root port's own id, not the port id stored in its vector. */
  function RootKey(s: Switch, r: nat): Vector
    requires r < |s.ports|
  {
    s.ports[r].(port := PortId(r))
  }

  /** The root port chosen among the first k ports. */
  function FindRootPort(s: Switch, k: nat): (b: Option<nat>)
    requires k <= |s.ports|
    ensures b.Some? ==> b.value < k && !IsDesignated(s, b.value)
  {
    if k == 0 then None
    else
      var b := FindRootPort(s, k - 1);
      if IsDesignated(s, k - 1) then b
      else if b.Some? && !SuperiorTo(s.ports[k - 1], RootKey(s, b.value)) then b
      else Some(k - 1)
  }

  ghost predicate HasCandidate(s: Switch) {
    exists q: nat :: q < |s.ports| && !IsDesignated(s, q)
  }

  function Elect(s: Switch, r: nat): Switch
    requires r < |s.ports|
  {
    s.(rootPort := Some(r), root := s.ports[r].root, cost := s.ports[r].cost + PATH_COST)
  }

  /** The port takes over the link when it is not superior to what s offers. */
  function ClaimPort(s: Switch, q: nat): Vector
    requires q < |s.ports|
  {
    if SuperiorTo(s.ports[q], Offer(s, q)) then s.ports[q] else s.ports[q].(sw := s.id, port := PortId(q))
  }

  function Claim(s: Switch): Switch {
    s.(ports := seq(|s.ports|, q requires 0 <= q < |s.ports| => ClaimPort(s, q)))
  }

  function RefreshPort(s: Switch, q: nat): Vector
    requires q < |s.ports|
  {
    if IsDesignated(s, q) then s.ports[q].(root := s.root, cost := s.cost) else s.ports[q]
  }

  function Refresh(s: Switch): Switch {
    s.(ports := seq(|s.ports|, q requires 0 <= q < |s.ports| => RefreshPort(s, q)))
  }

  function StopHello(s: Switch): Switch {
    s.(hello := s.hello && IsRootSwitch(s))
  }

  function Receive(s: Switch, p: nat, msg: Vector): Switch
    requires p < |s.ports|
  {
    s.(ports := s.ports[p := msg])
  }

  /** stp.c:234 dereferences the elected port, so an inferior port may only be
      overwritten when some port is left that is not designated. */
  ghost predicate CanHandle(s: Switch, p: nat, msg: Vector) {
    p < |s.ports| && (SuperiorTo(s.ports[p], msg) || HasCandidate(Receive(s, p, msg)))
  }

  lemma FindRootPortFound(s: Switch, k: nat, q: nat)
    requires q < k <= |s.ports| && !IsDesignated(s, q)
    ensures FindRootPort(s, k).Some?
  {
  }

  lemma CandidateFound(s: Switch)
    requires HasCandidate(s)
    ensures FindRootPort(s, |s.ports|).Some?
  {
    var q: nat :| q < |s.ports| && !IsDesignated(s, q);
    FindRootPortFound(s, |s.ports|, q);
  }

  function Recompute(s: Switch): Switch
    requires HasCandidate(s)
  {
    CandidateFound(s);
    StopHello(Refresh(Claim(Elect(s, FindRootPort(s, |s.ports|).value))))
  }

  /** stp_handle_config_packet: the new switch and what it sends. */
  function Handle(s: Switch, p: nat, msg: Vector): (Switch, seq<Packet>)
    requires CanHandle(s, p, msg)
  {
    if SuperiorTo(s.ports[p], msg) then (s, SendConfig(s, p))
    else
      var s' := Recompute(Receive(s, p, msg));
      (s', SendConfigs(s', |s'.ports|))
  }

  // ---------------------------------------------------------------------
  // The switch, updated in place
  // ---------------------------------------------------------------------

  class Stp {
    const switchId: nat
    var designatedRoot: nat
    var rootPathCost: nat
    var rootPort: Option<nat>
    var helloActive: bool
    var ports: array<Vector>

    function View(): Switch
      reads this, ports
    {
      Switch(switchId, designatedRoot, rootPathCost, rootPort, ports[..], helloActive)
    }

    constructor (id: nat, nports: nat)
      requires nports <= STP_MAX_PORTS
      ensures View() == Initial(id, nports) && fresh(ports)
    {
      switchId := id;
      designatedRoot := id;
      rootPathCost := 0;
      rootPort := None;
      helloActive := true;
      ports := new Vector[nports];
      new;
      for i := 0 to nports
        invariant ports.Length == nports && fresh(ports)
        invariant designatedRoot == id && rootPathCost == 0 && rootPort == None && helloActive
        invariant switchId == id
        invariant forall q: nat :: q < i ==> ports[q] == Vector(id, 0, id, PortId(q))
      {
        ports[i] := Vector(designatedRoot, rootPathCost, switchId, PortId(i));
      }
    }

    method PortSendConfig(p: nat) returns (out: seq<Packet>)
      requires p < ports.Length
      ensures out == SendConfig(View(), p)
    {
      var isRoot := designatedRoot == switchId;
      if !isRoot && rootPort.None? {
        return [];
      }
      return [Packet(p, Vector(designatedRoot, rootPathCost, switchId, PortId(p)))];
    }

    method SendAllConfigs() returns (out: seq<Packet>)
      ensures out == SendConfigs(View(), ports.Length)
    {
      out := [];
      for i := 0 to ports.Length
        invariant out == SendConfigs(View(), i)
      {
        if IsDesignated(View(), i) {
          var sent := PortSendConfig(i);
          out := out + sent;
        }
      }
    }

    /** First loop: elect the root port. */
    method ElectRootPort()
      requires HasCandidate(View())
      modifies this`rootPort, this`designatedRoot, this`rootPathCost
      ensures FindRootPort(old(View()), ports.Length).Some?
      ensures View() == Elect(old(View()), FindRootPort(old(View()), ports.Length).value)
    {
      var best: Option<nat> := None;
      for i := 0 to ports.Length
        invariant best == FindRootPort(View(), i)
      {
        if !(ports[i].sw == switchId && ports[i].port == PortId(i)) {
          if best.Some? {
            var b := ports[best.value];
            if SuperiorTo(ports[i], Vector(b.root, b.cost, b.sw, PortId(best.value))) {
              best := Some(i);
            }
          } else {
            best := Some(i);
          }
        }
      }
      CandidateFound(View());
      rootPort := best;
      designatedRoot := ports[best.value].root;
      rootPathCost := ports[best.value].cost + PATH_COST;
    }

    /** Second loop: ports that are not superior become designated. */
    method ClaimPorts()
      modifies ports
      ensures View() == Claim(old(View()))
    {
      for i := 0 to ports.Length
        invariant forall q: nat :: q < i ==> ports[q] == ClaimPort(old(View()), q)
        invariant forall q: nat :: i <= q < ports.Length ==> ports[q] == old(ports[q])
      {
        if !SuperiorTo(ports[i], Vector(designatedRoot, rootPathCost, switchId, PortId(i))) {
          ports[i] := ports[i].(sw := switchId, port := PortId(i));
        }
      }
    }

    /** Third loop: designated ports take the new root and cost. */
    method RefreshPorts()
      modifies ports
      ensures View() == Refresh(old(View()))
    {
      for i := 0 to ports.Length
        invariant forall q: nat :: q < i ==> ports[q] == RefreshPort(old(View()), q)
        invariant forall q: nat :: i <= q < ports.Length ==> ports[q] == old(ports[q])
      {
        if ports[i].sw == switchId && ports[i].port == PortId(i) {
          ports[i] := ports[i].(root := designatedRoot, cost := rootPathCost);
        }
      }
    }

    method HandleConfigPacket(p: nat, msg: Vector) returns (out: seq<Packet>)
      requires CanHandle(View(), p, msg)
      modifies this, ports
      ensures ports == old(ports)
      ensures (View(), out) == Handle(old(View()), p, msg)
    {
      if SuperiorTo(ports[p], msg) {
        out := PortSendConfig(p);
      } else {
        ports[p] := msg;
        assert View() == Receive(old(View()), p, msg);
        ElectRootPort();
        ClaimPorts();
        RefreshPorts();
        if designatedRoot != switchId {
          helloActive := false;
        }
        out := SendAllConfigs();
      }
    }

    method HelloTimeout() returns (out: seq<Packet>)
      requires helloActive
      modifies this`helloActive
      ensures View() == old(View())
      ensures out == SendConfigs(View(), ports.Length)
    {
      helloActive := false;
      out := SendAllConfigs();
      helloActive := true;
      assert SendConfigs(View(), ports.Length) == SendConfigs(View().(hello := false), ports.Length) by {
        SendConfigsIgnoresHello(View(), false, ports.Length);
      }
    }
  }

  lemma SendConfigsIgnoresHello(s: Switch, h: bool, k: nat)
    requires k <= |s.ports|
    ensures SendConfigs(s, k) == SendConfigs(s.(hello := h), k)
  {
  }
}
