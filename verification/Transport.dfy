/** The transport's side of the fetch pool (the Flux one): a single slot for the message of the request at hand, request
    state that is moved out of it, and the reference counts that keep a message alive while a reply to it is due. */
module Transport {
  import opened Files

  const WORD: nat := 0x1_0000_0000_0000_0000

  /** The three members of a ranged request; the numbers are signed on the wire. */
  datatype Fields = Fields(upath: string, offset: int, length: int)

  /** A request message; without fields it does not have the members that a ranged request has. */
  class Message {
    const from: nat
    const fields: Option<Fields>
    var refs: nat

    constructor (from: nat, fields: Option<Fields>)
      ensures this.from == from && this.fields == fields && refs == 1
    {
      this.from, this.fields := from, fields;
      refs := 1;
    }
  }

  /** struct dyad_dtl_flux_req_state; `live` until it is freed. */
  class ReqState {
    const msg: Message
    var live: bool

    constructor (msg: Message)
      ensures this.msg == msg && live
    {
      this.msg := msg;
      live := true;
    }
  }

  lemma Congruent(n: int)
    ensures (n % WORD - n) % WORD == 0
  {
    assert n % WORD - n == -(n / WORD) * WORD;
    Multiple(-(n / WORD));
  }

  lemma Multiple(q: int)
    ensures (q * WORD) % WORD == 0
  {
    assert q * WORD == q * WORD + 0;
  }

  /** How many open request states hold a message. */
  ghost function Held(open: set<ReqState>, msg: Message): nat {
    |set state | state in open && state.msg == msg|
  }

  /** Consuming one state gives back one hold on its own message, and none on any other. */
  lemma HeldRemove(open: set<ReqState>, state: ReqState, msg: Message)
    requires state in open
    ensures Held(open, msg) == Held(open - {state}, msg) + (if state.msg == msg then 1 else 0)
  {
    var holds := set x | x in open && x.msg == msg;
    var left := set x | x in open - {state} && x.msg == msg;
    if state.msg == msg {
      assert holds == left + {state};
    } else {
      assert holds == left;
    }
  }

  class Dtl {
    var slot: Message?
    ghost var open: set<ReqState>     // detached, neither sent nor aborted

    /** Open states are allocated, and every message has a reference for each state that holds it. */
    ghost predicate Valid()
      reads this, open, set state | state in open :: state.msg
    {
      && (forall state | state in open :: state.live)
      && (forall state | state in open :: Held(open, state.msg) <= state.msg.refs)
    }

    constructor ()
      ensures Valid() && slot == null && open == {}
    {
      slot, open := null, {};
    }

    /** rpc_unpack_range: the slot is set only when the message could be decoded, over whatever was in it; signed
        numbers come out as unsigned ones. */
    method UnpackRange(msg: Message) returns (result: Option<(string, nat, nat)>)
      requires Valid()
      modifies this`slot
      ensures Valid() && slot == if result.Some? then msg else old(slot)
      ensures match msg.fields
              case None => result == None
              case Some(fields) =>
                && result.Some? && result.value.0 == fields.upath
                && result.value.1 < WORD && (result.value.1 - fields.offset) % WORD == 0
                && result.value.2 < WORD && (result.value.2 - fields.length) % WORD == 0
    {
      if msg.fields.None? {
        return None;
      }
      var Fields(upath, offset, length) := msg.fields.value;
      slot := msg;
      Congruent(offset);
      Congruent(length);
      return Some((upath, offset % WORD, length % WORD));
    }

    /** rpc_detach_request: moves the message out of the slot, with a reference of its own. */
    method DetachRequest(memory: bool) returns (state: ReqState?)
      requires Valid() && slot != null && Held(open, slot) <= slot.refs
      modifies this, slot`refs
      ensures Valid()
      ensures !memory ==> state == null && slot == old(slot) && open == old(open) && slot.refs == old(slot.refs)
      ensures memory ==>
                && state != null && fresh(state) && state.live && state.msg == old(slot) && slot == null
                && open == old(open) + {state} && state.msg.refs == old(slot.refs) + 1
    {
      if !memory {
        return null;
      }
      var next := new ReqState(slot);
      slot.refs := slot.refs + 1;
      slot := null;
      open := open + {next};
      assert open - {next} == old(open);
      forall s | s in open
        ensures Held(open, s.msg) <= s.msg.refs
      {
        HeldRemove(open, next, s.msg);
      }
      state := next;
    }

    /** rpc_send_detached: answers the requester that the state was detached for, and frees the state whether or not
        sending worked. */
    method SendDetached(state: ReqState, sendOk: bool) returns (rc: bool, to: nat)
      requires Valid() && state in open
      modifies this`open, state, state.msg`refs
      ensures Valid() && open == old(open) - {state}
      ensures rc == sendOk && to == state.msg.from
      ensures !state.live && state.msg.refs == old(state.msg.refs) - 1
    {
      rc, to := sendOk, state.msg.from;
      Release(state);
    }

    /** rpc_abort_detached */
    method AbortDetached(state: ReqState)
      requires Valid() && state in open
      modifies this`open, state, state.msg`refs
      ensures Valid() && open == old(open) - {state}
      ensures !state.live && state.msg.refs == old(state.msg.refs) - 1
    {
      Release(state);
    }

    /** The message's reference is given up and the state freed, which must happen once. */
    method Release(state: ReqState)
      requires Valid() && state in open
      modifies this`open, state, state.msg`refs
      ensures Valid() && open == old(open) - {state}
      ensures !state.live && state.msg.refs == old(state.msg.refs) - 1
    {
      HeldRemove(open, state, state.msg);
      state.msg.refs := state.msg.refs - 1;
      state.live := false;
      ghost var before := open;
      open := open - {state};
      forall s | s in open
        ensures Held(open, s.msg) <= s.msg.refs
      {
        HeldRemove(before, state, s.msg);
      }
    }
  }
}
