/**
 Handles for pin metadata: the node's handle in the high 48 bits, the pin's index in the low
 16.  Shifting left by 16 multiplies by 2^16 and loses what leaves the 64 bits; since the low
 bits are then free, or-ing the masked index in adds it.
 */
module PinInfoHandles {
  import opened Basics
  import opened Traces
  import opened HandleRegistry
  import opened PinTree
  import opened HandleRpcs
  import P = RegistryProtocol

  const PIN_LIMIT: nat := 0x1_0000
  const NODE_LIMIT: nat := 0x1_0000_0000_0000

  function Encode(node: nat, pin: nat): nat {
    (node * PIN_LIMIT) % U64 + pin % PIN_LIMIT
  }

  function DecodeNode(handle: nat): nat {
    handle / PIN_LIMIT
  }

  function DecodePin(handle: nat): nat {
    handle % PIN_LIMIT
  }

  lemma ShiftKeepsLowBits(node: nat)
    ensures (node * PIN_LIMIT) % U64 == (node % NODE_LIMIT) * PIN_LIMIT
  {
    var q, r := node / NODE_LIMIT, node % NODE_LIMIT;
    assert node * PIN_LIMIT == q * U64 + r * PIN_LIMIT;
    assert r * PIN_LIMIT < U64;
  }

  /** Decoding an encoded pair gives its low 48 and low 16 bits. */
  lemma DecodeOfEncode(node: nat, pin: nat)
    ensures Encode(node, pin) < U64
    ensures DecodeNode(Encode(node, pin)) == node % 0x1_0000_0000_0000
    ensures DecodePin(Encode(node, pin)) == pin % 0x1_0000
  {
    ShiftKeepsLowBits(node);
  }

  /** Every 64-bit number is the handle of the pair it decodes to. */
  lemma EncodeOfDecode(handle: nat)
    requires handle < U64
    ensures Encode(DecodeNode(handle), DecodePin(handle)) == handle
  {
    ShiftKeepsLowBits(DecodeNode(handle));
  }

  /** Two pairs share a handle exactly when their low bits agree. */
  lemma SameHandleIff(node: nat, pin: nat, node': nat, pin': nat)
    ensures Encode(node, pin) == Encode(node', pin')
       <==> node % NODE_LIMIT == node' % NODE_LIMIT && pin % PIN_LIMIT == pin' % PIN_LIMIT
  {
    DecodeOfEncode(node, pin);
    DecodeOfEncode(node', pin');
    ShiftKeepsLowBits(node);
    ShiftKeepsLowBits(node');
  }

  // ---------------------------------------------------------------- the two RPCs

  /** The metadata of pin `pin` of the node `node`. */
  datatype PinInfo = PinInfo(node: Pointer, pin: nat)

  /** The metadata `getApiNodePinInfo` answers for a handle, if it answers with success. */
  function InfoOf(t: Table, sdk: Sdk, handle: nat): Option<PinInfo> {
    if KindStatus(t, sdk, DecodeNode(handle), NodeItem) != Ok then None
    else
      var node := Found(t, sdk.ids, DecodeNode(handle));
      if DecodePin(handle) >= |Pins(sdk.pins, node)| then None else Some(PinInfo(node, DecodePin(handle)))
  }

  /** An index that is out of range is answered with no handle at all.  `throws` is whether asking the node throws. */
  method PinInfoIx(registry: HandleRegistry?, sdk: Sdk, nodeHandle: nat, index: nat, throws: bool)
    returns (status: Status, handle: Option<nat>)
    modifies registry
    ensures registry == null ==> status == FailedPrecondition
    ensures registry != null ==>
              var required := KindStatus(old(registry.View()), sdk, nodeHandle, NodeItem);
              status == if required == Ok && throws then Internal else required
    ensures handle.Some? <==> status == Ok && index < |Pins(sdk.pins, Found(old(registry.View()), sdk.ids, nodeHandle))|
    ensures handle.Some? ==> handle.value == Encode(nodeHandle, index)
    ensures registry != null ==> registry.View() == AfterRequire(old(registry.View()), sdk.ids, nodeHandle)
  {
    var node;
    handle := None;
    status, node := RequireKind(registry, sdk, nodeHandle, NodeItem);
    if status != Ok {
      return;
    }
    if throws {
      return Internal, None;
    }
    if index < |Pins(sdk.pins, node)| {
      handle := Some(Encode(nodeHandle, index));
    }
  }

  /** Answers success = false, not an error, when there is nothing to tell; INTERNAL only if asking the node throws. */
  method GetApiNodePinInfo(registry: HandleRegistry?, sdk: Sdk, handle: nat, throws: bool)
    returns (status: Status, info: Option<PinInfo>)
    modifies registry
    ensures (status == Internal) <==>
            (throws && registry != null && KindStatus(old(registry.View()), sdk, DecodeNode(handle), NodeItem) == Ok)
    ensures status == Ok || status == Internal
    ensures info == if registry == null || status == Internal then None else InfoOf(old(registry.View()), sdk, handle)
    ensures registry != null ==> registry.View() == AfterRequire(old(registry.View()), sdk.ids, DecodeNode(handle))
  {
    var nodeHandle, pin := DecodeNode(handle), DecodePin(handle);
    var required, node := RequireKind(registry, sdk, nodeHandle, NodeItem);
    status, info := Ok, None;
    if required != Ok {
      return;
    }
    if throws {
      return Internal, None;
    }
    if pin < |Pins(sdk.pins, node)| {
      info := Some(PinInfo(node, pin));
    }
  }

  /**
   `pinInfoIx` gave a handle for pin `index` of the node `x` that it found under `h`.  Whatever
   other clients and the SDK do before and `between`, the handle later leads to that very node
   and pin if and only if the node's handle fits in 48 bits and the index in 16, and then the
   node is alive, still has the pin, and its handle still resolves.
   */
  lemma InfoIsOfThatPinIff(before: Trace<P.Step>, between: Trace<P.Step>, sdk: Sdk, sdk': Sdk, h: nat, index: nat)
    requires P.Exec(before).Some? && P.Exec(before.Then(between)).Some?
    requires sdk.ids == P.Exec(before).value.ids && sdk'.ids == P.Exec(before.Then(between)).value.ids
    requires DistinctIds(sdk'.ids)
    requires KindStatus(P.Exec(before).value.table, sdk, h, NodeItem) == Ok
    requires index < |Pins(sdk.pins, Found(P.Exec(before).value.table, sdk.ids, h))|
    ensures var x, t' := Found(P.Exec(before).value.table, sdk.ids, h), P.Exec(before.Then(between)).value.table;
      InfoOf(t', sdk', Encode(h, index)) == Some(PinInfo(x, index)) <==>
      (&& h < NODE_LIMIT && index < PIN_LIMIT
       && UniqueId(sdk'.ids, x) != 0 && KindOf(sdk', x) == NodeItem && index < |Pins(sdk'.pins, x)|
       && ItemStatus(t', sdk'.ids, h) == Ok)
  {
    var x := Found(P.Exec(before).value.table, sdk.ids, h);
    P.LookupAnswersHistory(before, h);
    P.IdentityIsKept(before, between, x);
    DecodeOfEncode(h, index);
    P.LookupAnswersHistory(before.Then(between), DecodeNode(Encode(h, index)));
    P.LookupAnswersHistory(before.Then(between), h);
    if h >= NODE_LIMIT {
      assert DecodeNode(Encode(h, index)) != h;
    }
  }

  /** A node whose handle needs a 49th bit: its pin handle asks about another node. */
  lemma WideHandleMissesItsNode()
    ensures Encode(NODE_LIMIT + 5, 3) == Encode(5, 3)
  {
    SameHandleIff(NODE_LIMIT + 5, 3, 5, 3);
  }
}
