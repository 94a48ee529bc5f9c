/**
 * The ExtraInfo mailbox: one text slot per message type (MSG, PRN, DBG,
 * LOG), filled by active comments while a line is processed and read by the
 * caller between steps.
 *
 * The slot contents as a value (`Slots`) and the functions over it are the
 * specification; class `ExtraInfo` is the object the interpreter mutates.
 */
module Extra {
  import opened Errors

  const MSG: nat := 0
  const PRN: nat := 1
  const DBG: nat := 2
  const LOG: nat := 3
  const TOTAL_TYPES: nat := 4

  type Slots = m: seq<string> | |m| == TOTAL_TYPES witness ["", "", "", ""]

  function EmptySlots(): (m: Slots)
    ensures forall t :: 0 <= t < TOTAL_TYPES ==> m[t] == ""
  {
    ["", "", "", ""]
  }

  /** Some slot holds a message. */
  predicate Pending(m: Slots) {
    exists t :: 0 <= t < TOTAL_TYPES && m[t] != ""
  }

  /** Taking the message of type `t`: its text, and the slots afterwards. */
  function RetrieveSlot(m: Slots, t: nat): (r: (Option<string>, Slots))
    ensures r.0.None? <==> t >= TOTAL_TYPES || m[t] == ""
    ensures r.0.None? ==> r.1 == m
    ensures r.0.Some? ==> t < TOTAL_TYPES && r.0.value == m[t] && r.0.value != ""
    ensures r.0.Some? ==> r.1[t] == "" && forall u :: 0 <= u < TOTAL_TYPES && u != t ==> r.1[u] == m[u]
  {
    if t >= TOTAL_TYPES || m[t] == "" then (None, m) else (Some(m[t]), m[t := ""])
  }

  function AssignSlot(m: Slots, t: nat, s: string): (r: Slots)
    ensures t < TOTAL_TYPES ==> r[t] == s
    ensures forall u :: 0 <= u < TOTAL_TYPES && u != t ==> r[u] == m[u]
  {
    if t < TOTAL_TYPES then m[t := s] else m
  }

  /** `Clear(t)`: slot `t` only, or every slot when `t` is out of range. */
  function ClearSlot(m: Slots, t: nat): (r: Slots)
    ensures t < TOTAL_TYPES ==> r[t] == "" && forall u :: 0 <= u < TOTAL_TYPES && u != t ==> r[u] == m[u]
    ensures t >= TOTAL_TYPES ==> forall u :: 0 <= u < TOTAL_TYPES ==> r[u] == ""
  {
    if t < TOTAL_TYPES then m[t := ""] else EmptySlots()
  }

  /** The lowest message type whose slot is not empty. */
  function FirstPending(m: Slots): (r: Option<nat>)
    ensures r.Some? <==> Pending(m)
    ensures r.Some? ==> r.value < TOTAL_TYPES && m[r.value] != ""
    ensures r.Some? ==> forall u :: 0 <= u < r.value ==> m[u] == ""
  {
    if m[MSG] != "" then Some(MSG)
    else if m[PRN] != "" then Some(PRN)
    else if m[DBG] != "" then Some(DBG)
    else if m[LOG] != "" then Some(LOG)
    else None
  }

  /** The pending messages among the first `n` types, as (type, text) pairs in type order. */
  function PendingList(m: Slots, n: nat): seq<(nat, string)>
    requires n <= TOTAL_TYPES
  {
    if n == 0 then []
    else PendingList(m, n - 1) + (if m[n - 1] != "" then [(n - 1, m[n - 1])] else [])
  }

  /** Every listed pair is a non-empty slot below `n` with its own text, in increasing type order. */
  lemma {:induction false} PendingListSound(m: Slots, n: nat)
    requires n <= TOTAL_TYPES
    ensures forall i :: 0 <= i < |PendingList(m, n)| ==>
      PendingList(m, n)[i].0 < n && PendingList(m, n)[i].1 == m[PendingList(m, n)[i].0] != ""
    ensures forall i, j :: 0 <= i < j < |PendingList(m, n)| ==> PendingList(m, n)[i].0 < PendingList(m, n)[j].0
    decreases n
  {
    if n > 0 {
      PendingListSound(m, n - 1);
    }
  }

  /** Every non-empty slot below `n` is listed. */
  lemma {:induction false} PendingListComplete(m: Slots, n: nat, t: nat)
    requires t < n <= TOTAL_TYPES && m[t] != ""
    ensures exists i :: 0 <= i < |PendingList(m, n)| && PendingList(m, n)[i] == (t, m[t])
    decreases n
  {
    var r := PendingList(m, n - 1);
    var l := PendingList(m, n);
    if t == n - 1 {
      assert l[|r|] == (t, m[t]);
    } else {
      PendingListComplete(m, n - 1, t);
      var i :| 0 <= i < |r| && r[i] == (t, m[t]);
      assert l[i] == r[i];
    }
  }

  /** Empty slots add nothing to the list. */
  lemma {:induction false} PendingListSkips(m: Slots, a: nat, b: nat)
    requires a <= b <= TOTAL_TYPES
    requires forall u :: a <= u < b ==> m[u] == ""
    ensures PendingList(m, b) == PendingList(m, a)
    decreases b
  {
    if b > a {
      PendingListSkips(m, a, b - 1);
    }
  }

  /** An immediate second retrieval of the same type finds nothing. */
  lemma RetrieveTwice(m: Slots, t: nat)
    ensures RetrieveSlot(RetrieveSlot(m, t).1, t).0 == None
  {
  }

  /** Successive assignments to one type: the last one wins. */
  lemma AssignLastWins(m: Slots, t: nat, a: string, b: string)
    ensures AssignSlot(AssignSlot(m, t, a), t, b) == AssignSlot(m, t, b)
  {
  }

  class ExtraInfo {
    const msg: array<string>
    /** The text handed out by the last successful `Retrieve`. */
    var output: string

    ghost predicate Valid()
      reads this
    {
      msg.Length == TOTAL_TYPES
    }

    function Slots(): Slots
      requires Valid()
      reads this, msg
    {
      msg[..]
    }

    constructor()
      ensures Valid() && fresh(msg)
      ensures Slots() == EmptySlots() && output == ""
    {
      msg := new string[TOTAL_TYPES](_ => "");
      output := "";
    }

    /** Hands out the message of type `t` (null in the source when there is none) and empties its slot. */
    method Retrieve(t: nat) returns (r: Option<string>)
      requires Valid()
      modifies this, msg
      ensures Valid()
      ensures (r, Slots()) == RetrieveSlot(old(Slots()), t)
      ensures output == if r.Some? then r.value else old(output)
    {
      if t >= TOTAL_TYPES || msg[t] == "" {
        return None;
      }
      output := "";
      output, msg[t] := msg[t], output;
      r := Some(output);
    }

    method Assign(t: nat, s: string)
      requires Valid()
      modifies msg
      ensures Valid()
      ensures Slots() == AssignSlot(old(Slots()), t, s)
    {
      if t < TOTAL_TYPES {
        msg[t] := s;
      }
    }

    method Clear(t: nat := TOTAL_TYPES)
      requires Valid()
      modifies msg
      ensures Valid()
      ensures Slots() == ClearSlot(old(Slots()), t)
    {
      if t < TOTAL_TYPES {
        msg[t] := "";
      } else {
        for u := 0 to TOTAL_TYPES
          invariant forall k :: 0 <= k < u ==> msg[k] == ""
        {
          msg[u] := "";
        }
      }
    }

    /** The lowest type holding a message, if any; changes nothing. */
    method FirstNonEmpty() returns (r: Option<nat>)
      requires Valid()
      ensures r == FirstPending(Slots())
    {
      for t := 0 to TOTAL_TYPES
        invariant forall u :: 0 <= u < t ==> msg[u] == ""
      {
        if msg[t] != "" {
          return Some(t);
        }
      }
      return None;
    }

    /**
     * The caller's loop: while some message is pending, retrieve the first
     * one. Each round empties the lowest pending slot, so the loop ends; it
     * hands out every pending message in type order and leaves every slot
     * empty.
     */
    method Drain() returns (out: seq<(nat, string)>)
      requires Valid()
      modifies this, msg
      ensures Valid()
      ensures Slots() == EmptySlots()
      ensures out == PendingList(old(Slots()), TOTAL_TYPES)
    {
      out := [];
      ghost var start := Slots();
      ghost var lo: nat := 0;
      var first := FirstNonEmpty();
      while first.Some?
        invariant Valid() && lo <= TOTAL_TYPES
        invariant first == FirstPending(Slots())
        invariant first.Some? ==> lo <= first.value
        invariant forall u :: 0 <= u < lo ==> Slots()[u] == ""
        invariant forall u :: lo <= u < TOTAL_TYPES ==> Slots()[u] == start[u]
        invariant out == PendingList(start, lo)
        decreases TOTAL_TYPES - lo
      {
        var t := first.value;
        PendingListSkips(start, lo, t);
        var text := Retrieve(t);
        out := out + [(t, text.value)];
        lo := t + 1;
        first := FirstNonEmpty();
      }
      PendingListSkips(start, lo, TOTAL_TYPES);
    }
  }
}
