/** The instruction list of a basic block: one doubly linked chain, phis first, with first and last pointers for
    both halves, a parent pointer in every instruction, and a count. */
module BlockList {
  class Instruction {
    const phi: bool
    var prev: Instruction?
    var next: Instruction?
    var parent: BasicBlock?

    constructor (phi: bool)
      ensures this.phi == phi && Detached()
    {
      this.phi := phi;
      prev, next, parent := null, null, null;
    }

    predicate Detached()
      reads this
    {
      prev == null && next == null && parent == null
    }
  }

  ghost function At(list: seq<Instruction>, i: int): Instruction? { if 0 <= i < |list| then list[i] else null }

  ghost predicate Distinct(list: seq<Instruction>) { forall i, j :: 0 <= i < j < |list| ==> list[i] != list[j] }

  /** The first `phis` instructions are phis and the others are not. */
  ghost predicate PhisFirst(list: seq<Instruction>, phis: nat) {
    phis <= |list| && forall i :: 0 <= i < |list| ==> (list[i].phi <==> i < phis)
  }

  ghost predicate Linked(block: BasicBlock, list: seq<Instruction>, i: nat)
    requires i < |list|
    reads list[i]
  {
    list[i].parent == block && list[i].prev == At(list, i - 1) && list[i].next == At(list, i + 1)
  }

  ghost predicate Chain(block: BasicBlock, list: seq<Instruction>)
    reads list
  {
    Distinct(list) && forall i :: 0 <= i < |list| ==> Linked(block, list, i)
  }

  function Inserted<T>(list: seq<T>, k: nat, x: T): seq<T>
    requires k <= |list|
  {
    list[..k] + [x] + list[k..]
  }

  function Removed<T>(list: seq<T>, k: nat): seq<T>
    requires k < |list|
  {
    list[..k] + list[k + 1..]
  }

  lemma InsertedAt(list: seq<Instruction>, k: nat, x: Instruction, i: int)
    requires k <= |list|
    ensures At(Inserted(list, k, x), i) == if i < k then At(list, i) else if i == k then x else At(list, i - 1)
  {
  }

  lemma RemovedAt(list: seq<Instruction>, k: nat, i: int)
    requires k < |list|
    ensures At(Removed(list, k), i) == if i < k then At(list, i) else At(list, i + 1)
  {
  }

  lemma InsertedDistinct(list: seq<Instruction>, k: nat, x: Instruction)
    requires k <= |list| && Distinct(list) && x !in list
    ensures Distinct(Inserted(list, k, x))
  {
  }

  /** Where the phis end after an instruction that is no phi, or a phi at the front, has come in. */
  lemma InsertedPhis(list: seq<Instruction>, phis: nat, k: nat, x: Instruction)
    requires PhisFirst(list, phis) && k <= |list|
    ensures !x.phi ==> (PhisFirst(Inserted(list, k, x), phis) <==> k >= phis)
    ensures x.phi && k == 0 ==> PhisFirst(Inserted(list, k, x), phis + 1)
  {
    var l := Inserted(list, k, x);
    assert l[k] == x;
    forall i | 0 <= i < |l| && i != k ensures l[i] == list[if i < k then i else i - 1] {}
  }

  lemma RemovedPhis(list: seq<Instruction>, phis: nat, k: nat)
    requires PhisFirst(list, phis) && k < |list|
    ensures PhisFirst(Removed(list, k), if list[k].phi then phis - 1 else phis)
  {
  }

  /** The chain with one more instruction in it: its neighbours point to it, and the rest is as it was. */
  lemma Spliced(block: BasicBlock, list: seq<Instruction>, k: nat, x: Instruction)
    requires k <= |list| && x !in list && Distinct(list)
    requires x.parent == block && x.prev == At(list, k - 1) && x.next == At(list, k)
    requires forall i {:trigger list[i]} :: 0 <= i < |list| ==>
      && list[i].parent == block
      && list[i].next == (if i == k - 1 then x else At(list, i + 1))
      && list[i].prev == (if i == k then x else At(list, i - 1))
    ensures Chain(block, Inserted(list, k, x))
  {
    var l := Inserted(list, k, x);
    InsertedDistinct(list, k, x);
    forall i | 0 <= i < |l| ensures Linked(block, l, i) {
      InsertedAt(list, k, x, i - 1);
      InsertedAt(list, k, x, i);
      InsertedAt(list, k, x, i + 1);
    }
  }

  /** The chain with one instruction taken out: its neighbours point to each other. */
  lemma Cut(block: BasicBlock, list: seq<Instruction>, k: nat)
    requires k < |list| && Distinct(list)
    requires forall i {:trigger list[i]} :: 0 <= i < |list| && i != k ==>
      && list[i].parent == block
      && list[i].next == (if i == k - 1 then At(list, k + 1) else At(list, i + 1))
      && list[i].prev == (if i == k + 1 then At(list, k - 1) else At(list, i - 1))
    ensures Chain(block, Removed(list, k))
  {
    var l := Removed(list, k);
    forall i | 0 <= i < |l| ensures Linked(block, l, i) {
      RemovedAt(list, k, i - 1);
      RemovedAt(list, k, i);
      RemovedAt(list, k, i + 1);
    }
  }

  lemma Same(list: seq<Instruction>, i: nat, j: int)
    requires Distinct(list) && i < |list|
    ensures list[i] == At(list, j) <==> i == j
  {
  }

  lemma Neighbours(block: BasicBlock, list: seq<Instruction>, k: nat)
    requires Chain(block, list) && k < |list|
    ensures list[k].parent == block && list[k].prev == At(list, k - 1) && list[k].next == At(list, k + 1)
    ensures k > 0 ==> list[k].prev in list
    ensures k + 1 < |list| ==> list[k].next in list
  {
    assert Linked(block, list, k);
  }

  class BasicBlock {
    var firstPhi: Instruction?
    var lastPhi: Instruction?
    var firstInst: Instruction?
    var lastInst: Instruction?
    var instrsCount: nat
    /** The instructions in order, and how many of them are phis. */
    ghost var list: seq<Instruction>
    ghost var phis: nat

    constructor ()
      ensures Valid() && list == [] && phis == 0 && firstPhi == lastPhi == firstInst == lastInst == null
    {
      firstPhi, lastPhi, firstInst, lastInst, instrsCount := null, null, null, null, 0;
      list, phis := [], 0;
    }

    ghost predicate Ends()
      reads this
    {
      && phis <= |list|
      && firstPhi == (if phis > 0 then At(list, 0) else null)
      && lastPhi == (if phis > 0 then At(list, phis - 1) else null)
      && firstInst == At(list, phis)
      && lastInst == (if phis < |list| then At(list, |list| - 1) else null)
    }

    ghost predicate Valid()
      reads this, list
    {
      Ends() && PhisFirst(list, phis) && Chain(this, list) && instrsCount == |list|
    }

    /** Phis go to the front of the phis, other instructions to one of the ends of the rest. Pushing to the front
        of the rest does not link to the last phi, and so is good exactly when there is none, or nothing else. */
    method PushInstruction(instr: Instruction, pushBack: bool)
      requires Valid() && instr.Detached() && instr !in list
      modifies this, list, instr
      ensures Valid() <==> instr.phi || pushBack || old(phis) == 0 || old(phis) == old(|list|)
      ensures instrsCount == |list|
      ensures instr.phi ==> list == Inserted(old(list), 0, instr) && phis == old(phis) + 1
      ensures !instr.phi ==> list == Inserted(old(list), if pushBack then |old(list)| else old(phis), instr) && phis == old(phis)
    {
      hide Inserted, PhisFirst, Distinct, Linked, Chain, At;
      PhiCount(list, phis);
      instr.parent := this;
      if instr.phi {
        InsertedPhis(list, phis, 0, instr);
        PushPhi(instr);
      } else {
        InsertedPhis(list, phis, if pushBack then |list| else phis, instr);
        PushInst(instr, pushBack);
      }
      instrsCount := instrsCount + 1;
      InsertedSize(old(list), if instr.phi then 0 else if pushBack then |old(list)| else old(phis), instr);
    }

    method PushPhi(instr: Instruction)
      requires Ends() && Chain(this, list) && instr !in list
      requires instr.parent == this && instr.prev == null && instr.next == null
      modifies this, list, instr
      ensures Ends() && Chain(this, list) && instrsCount == old(instrsCount)
      ensures list == Inserted(old(list), 0, instr) && phis == old(phis) + 1
    {
      hide At;
      ghost var l := list;
      EndsIn(this, l, 0);
      EndsIn(this, l, phis);
      if firstPhi == null {
        firstPhi := instr;
        lastPhi := firstPhi;
        lastPhi.next := firstInst;
        if firstInst != null { firstInst.prev := lastPhi; }
      } else {
        instr.next := firstPhi;
        firstPhi.prev := instr;
        firstPhi := instr;
      }
      forall i | 0 <= i < |l|
        ensures l[i].parent == this
        ensures l[i].next == (if i == -1 then instr else At(l, i + 1)) && l[i].prev == (if i == 0 then instr else At(l, i - 1))
      {
        assert old(Linked(this, l, i));
        Same(l, i, -1);
        Same(l, i, 0);
      }
      Spliced(this, l, 0, instr);
      list, phis := Inserted(l, 0, instr), phis + 1;
      InsertedEnds(l, 0, instr, phis - 1);
    }

    method PushInst(instr: Instruction, pushBack: bool)
      requires Ends() && Chain(this, list) && instr !in list
      requires instr.parent == this && instr.prev == null && instr.next == null
      modifies this, list, instr
      ensures Ends() && instrsCount == old(instrsCount)
      ensures Chain(this, list) <==> pushBack || phis == 0 || phis == old(|list|)
      ensures list == Inserted(old(list), if pushBack then |old(list)| else old(phis), instr) && phis == old(phis)
    {
      hide At;
      ghost var l := list;
      EndsIn(this, l, phis);
      EndsIn(this, l, |l|);
      if firstInst == null {
        assert phis == |l|;
        instr.prev := lastPhi;
        firstInst := instr;
        lastInst := instr;
        if lastPhi != null { lastPhi.next := instr; }
      } else if pushBack {
        instr.prev := lastInst;
        lastInst.next := instr;
        lastInst := instr;
      } else {
        instr.next := firstInst;
        firstInst.prev := instr;
        firstInst := instr;
      }
      ghost var k := if pushBack then |l| else phis;
      list := Inserted(l, k, instr);
      InsertedEnds(l, k, instr, phis);
      if pushBack || phis == 0 || phis == |l| {
        forall i | 0 <= i < |l|
          ensures l[i].parent == this
          ensures l[i].next == (if i == k - 1 then instr else At(l, i + 1)) && l[i].prev == (if i == k then instr else At(l, i - 1))
        {
          assert old(Linked(this, l, i));
          Same(l, i, k - 1);
          Same(l, i, k);
        }
        Spliced(this, l, k, instr);
      } else {
        Unlinked(this, l, phis, instr);
      }
    }

    /** The neighbours now point to `target`, and it to them. */
    method Link(prev: Instruction?, next: Instruction?, target: Instruction, ghost k: nat)
      requires Chain(this, list) && k <= |list| && prev == At(list, k - 1) && next == At(list, k) && target !in list
      modifies list, target
      ensures Chain(this, Inserted(list, k, target))
    {
      hide At, Distinct;
      ghost var l := list;
      EndsIn(this, l, k);
      target.parent := this;
      target.prev := prev;
      target.next := next;
      if prev != null { prev.next := target; }
      if next != null { next.prev := target; }
      forall i | 0 <= i < |l|
        ensures l[i].parent == this
        ensures l[i].next == (if i == k - 1 then target else At(l, i + 1)) && l[i].prev == (if i == k then target else At(l, i - 1))
      {
        assert old(Linked(this, l, i));
        Same(l, i, k - 1);
        Same(l, i, k);
      }
      Spliced(this, l, k, target);
    }

    /** In front of `before`. Good exactly when `before` is no phi and is not the first one after the phis;
        phis are not inserted this way. */
    method InsertBefore(before: Instruction, target: Instruction, ghost k: nat)
      requires Valid() && k < |list| && list[k] == before && target.Detached() && target !in list && !target.phi
      requires before.prev == null ==> before == firstInst
      modifies this, list, target
      ensures list == Inserted(old(list), k, target) && phis == old(phis) && instrsCount == |list|
      ensures Valid() <==> k > phis || (k == phis == 0)
    {
      hide PhisFirst, Distinct, Linked, Chain;
      ghost var l := list;
      PhiAt(list, phis, k);
      Neighbours(this, l, k);
      var prev := before.prev;
      Link(prev, before, target, k);
      if prev == null { firstInst := target; }
      instrsCount := instrsCount + 1;
      list := Inserted(l, k, target);
      InsertedEnds(l, k, target, phis);
      InsertedPhis(l, phis, k, target);
    }

    /** Behind `after`. Good exactly when `after` is no phi. */
    method InsertAfter(after: Instruction, target: Instruction, ghost k: nat)
      requires Valid() && k < |list| && list[k] == after && target.Detached() && target !in list && !target.phi
      requires after.next == null ==> lastInst == after
      modifies this, list, target
      ensures list == Inserted(old(list), k + 1, target) && phis == old(phis) && instrsCount == |list|
      ensures Valid() <==> !after.phi
    {
      hide PhisFirst, Distinct, Linked, Chain;
      ghost var l := list;
      PhiAt(list, phis, k);
      Neighbours(this, l, k);
      var next := after.next;
      Link(after, next, target, k + 1);
      if next == null { lastInst := target; }
      instrsCount := instrsCount + 1;
      list := Inserted(l, k + 1, target);
      InsertedEnds(l, k + 1, target, phis);
      InsertedPhis(l, phis, k + 1, target);
    }

    /** Takes an instruction out and leaves it detached. */
    method UnlinkInstruction(target: Instruction, ghost k: nat)
      requires Valid() && k < |list| && list[k] == target
      modifies this, list
      ensures Valid() && target.Detached()
      ensures list == Removed(old(list), k) && phis == if target.phi then old(phis) - 1 else old(phis)
    {
      hide At, Linked, Chain, Distinct, PhisFirst;
      ghost var l, p := list, phis;
      EndsIn(this, l, k);
      var prev, next := Disconnect(target, k);
      UpdateEnds(target, prev, next, k);
      instrsCount := instrsCount - 1;
      RemovedPhis(l, p, k);
      RemovedSize(l, k);
    }

    /** The neighbours now point to each other. */
    method Disconnect(target: Instruction, ghost k: nat) returns (prev: Instruction?, next: Instruction?)
      requires Chain(this, list) && k < |list| && list[k] == target
      modifies list
      ensures Chain(this, Removed(list, k)) && target.Detached() && prev == At(list, k - 1) && next == At(list, k + 1)
    {
      hide At, Distinct;
      ghost var l := list;
      Neighbours(this, l, k);
      EndsIn(this, l, k);
      EndsIn(this, l, k + 1);
      target.parent := null;
      prev := target.prev;
      next := target.next;
      target.prev := null;
      target.next := null;
      if prev != null { prev.next := next; }
      if next != null { next.prev := prev; }
      forall i | 0 <= i < |l| && i != k
        ensures l[i].parent == this
        ensures l[i].next == (if i == k - 1 then At(l, k + 1) else At(l, i + 1))
        ensures l[i].prev == (if i == k + 1 then At(l, k - 1) else At(l, i - 1))
      {
        assert old(Linked(this, l, i));
        Same(l, i, k - 1);
        Same(l, i, k);
        Same(l, i, k + 1);
      }
      Cut(this, l, k);
    }

    /** Moves everything behind `instr` to a new block. Good exactly when `instr` is not the last phi. */
    method SplitAfterInstruction(instr: Instruction, ghost k: nat) returns (newBlock: BasicBlock)
      requires Valid() && k < |list| && list[k] == instr && instr.next != null
      modifies this, list
      ensures fresh(newBlock) && list == old(list[..k + 1]) && newBlock.list == old(list[k + 1..])
      ensures instrsCount == |list| && newBlock.instrsCount == |newBlock.list|
      ensures Valid() && newBlock.Valid() <==> k + 1 != old(phis)
    {
      hide At, Linked, Chain, PhisFirst, Distinct;
      ghost var l, p := list, phis;
      EndsIn(this, l, k + 1);
      Neighbours(this, l, k);
      var nextInstr := instr.next;
      newBlock := new BasicBlock();
      DetachTail(newBlock, instr, nextInstr, k);
      instrsCount := instrsCount - newBlock.instrsCount;
      PhisShared(l, p, k);
      PhiCount(l, p);
      ShareEnds(newBlock, instr, nextInstr, k);
    }

    /** The end pointers of the two halves. */
    method ShareEnds(newBlock: BasicBlock, instr: Instruction, nextInstr: Instruction, ghost k: nat)
      requires Ends() && newBlock != this && k + 1 < |list| && list[k] == instr && list[k + 1] == nextInstr
      requires newBlock.firstPhi == newBlock.lastPhi == newBlock.firstInst == newBlock.lastInst == null && newBlock.phis == 0
      requires nextInstr.phi <==> k + 1 < phis
      modifies this, newBlock
      ensures list == old(list[..k + 1]) && newBlock.list == old(list[k + 1..])
      ensures instrsCount == old(instrsCount) && newBlock.instrsCount == old(newBlock.instrsCount)
      ensures if k + 1 < old(phis) then phis == k + 1 && newBlock.phis == old(phis) - (k + 1) else phis == old(phis) && newBlock.phis == 0
      ensures newBlock.Ends() && (Ends() <==> k + 1 != old(phis))
    {
      hide At;
      ghost var l := list;
      PartEnds(l, phis, k);
      if nextInstr.phi {
        newBlock.firstPhi := nextInstr;
        newBlock.lastPhi := lastPhi;
        lastPhi := instr;
        newBlock.firstInst := firstInst;
        newBlock.lastInst := lastInst;
        firstInst := null;
        lastInst := null;
        newBlock.phis, phis := phis - (k + 1), k + 1;
      } else {
        newBlock.firstInst := nextInstr;
        newBlock.lastInst := lastInst;
        lastInst := instr;
      }
      newBlock.list, list := l[k + 1..], l[..k + 1];
    }

    /** The chain falls into two, and the second half belongs to the new block. */
    method DetachTail(newBlock: BasicBlock, instr: Instruction, nextInstr: Instruction, ghost k: nat)
      requires Chain(this, list) && k + 1 < |list| && list[k] == instr && list[k + 1] == nextInstr
      requires newBlock != this && newBlock.instrsCount == 0
      modifies newBlock`instrsCount, list
      ensures Chain(this, list[..k + 1]) && Chain(newBlock, list[k + 1..]) && newBlock.instrsCount == |list| - (k + 1)
    {
      hide At;
      ghost var l := list;
      EndsIn(this, l, k + 1);
      EndsIn(this, l, |l|);
      instr.next := null;
      nextInstr.prev := null;
      forall i | k + 1 <= i < |l| ensures l[i].next == At(l, i + 1) { assert old(Linked(this, l, i)); Same(l, i, k); }
      MoveTo(newBlock, nextInstr, l, k + 1);
      forall i | 0 <= i < |l|
        ensures l[i].parent == if i < k + 1 then this else newBlock
        ensures l[i].prev == (if i == k + 1 then null else At(l, i - 1)) && l[i].next == (if i == k then null else At(l, i + 1))
      {
        assert old(Linked(this, l, i));
        Same(l, i, k);
        Same(l, i, k + 1);
      }
      Part(this, l, 0, k + 1);
      Part(newBlock, l, k + 1, |l|);
      assert l[0..k + 1] == l[..k + 1] && l[k + 1..|l|] == l[k + 1..];
    }

    /** The end pointers, for the instruction just taken out of place `k`. */
    method UpdateEnds(target: Instruction, prev: Instruction?, next: Instruction?, ghost k: nat)
      requires Ends() && PhisFirst(list, phis) && Distinct(list) && k < |list| && list[k] == target
      requires prev == At(list, k - 1) && next == At(list, k + 1)
      modifies this
      ensures list == Removed(old(list), k) && phis == (if target.phi then old(phis) - 1 else old(phis)) && Ends()
      ensures instrsCount == old(instrsCount)
    {
      ghost var l := list;
      RemovedPhis(l, phis, k);
      Same(l, k, 0);
      Same(l, k, phis - 1);
      Same(l, k, phis);
      Same(l, k, |l| - 1);
      if target.phi {
        if target == firstPhi {
          if target == lastPhi {
            firstPhi := null;
            lastPhi := null;
          } else {
            firstPhi := next;
          }
        } else if target == lastPhi {
          lastPhi := prev;
        }
        phis := phis - 1;
      } else {
        if target == firstInst { firstInst := next; }
        if target == lastInst { lastInst := if prev != null && prev.phi then null else prev; }
      }
      list := Removed(l, k);
      RemovedEnds(l, k, phis);
    }
  }

  /** A stretch of the chain with nothing before and after it. */
  lemma Part(block: BasicBlock, list: seq<Instruction>, lo: nat, hi: nat)
    requires lo <= hi <= |list| && Distinct(list)
    requires forall i {:trigger list[i]} :: lo <= i < hi ==>
      && list[i].parent == block
      && list[i].prev == (if i == lo then null else At(list, i - 1))
      && list[i].next == (if i == hi - 1 then null else At(list, i + 1))
    ensures Chain(block, list[lo..hi])
  {
    var l := list[lo..hi];
    forall i | 0 <= i < |l| ensures Linked(block, l, i) { assert l[i] == list[lo + i]; }
  }

  /** How the phis are shared out when the chain is cut behind place `k`. */
  lemma PhisShared(list: seq<Instruction>, phis: nat, k: nat)
    requires PhisFirst(list, phis) && k + 1 < |list|
    ensures list[k + 1].phi <==> k + 1 < phis
    ensures k + 1 < phis ==> PhisFirst(list[..k + 1], k + 1) && PhisFirst(list[k + 1..], phis - (k + 1))
    ensures k + 1 >= phis ==> PhisFirst(list[..k + 1], phis) && PhisFirst(list[k + 1..], 0)
  {
  }

  /** The last phi still points past the instruction. */
  lemma Unlinked(block: BasicBlock, list: seq<Instruction>, k: nat, x: Instruction)
    requires 0 < k < |list| && x !in list && list[k - 1].next == list[k]
    ensures !Chain(block, Inserted(list, k, x))
  {
    var l := Inserted(list, k, x);
    assert l[k - 1] == list[k - 1] && l[k] == x && list[k] in list;
    assert !Linked(block, l, k - 1);
  }

  /** The ends of the two halves. */
  lemma PartEnds(list: seq<Instruction>, phis: nat, k: nat)
    requires k + 1 < |list| && phis <= |list|
    ensures var a, b := list[..k + 1], list[k + 1..];
      && |a| == k + 1 && At(a, k + 1) == null && At(a, 0) == At(list, 0) && At(a, k) == list[k] && At(a, phis) == (if phis < k + 1 then At(list, phis) else null)
      && At(a, phis - 1) == (if phis <= k + 1 then At(list, phis - 1) else null)
      && At(b, 0) == list[k + 1] && At(b, |b| - 1) == At(list, |list| - 1)
      && (phis > k ==> At(b, phis - (k + 1)) == At(list, phis) && (phis > k + 1 ==> At(b, phis - (k + 1) - 1) == At(list, phis - 1)))
  {
  }

  /** Everything from place `k` on, which starts at `from`, now belongs to the block; the rest of it is kept. */
  method MoveTo(block: BasicBlock, from: Instruction, ghost list: seq<Instruction>, ghost k: nat)
    requires k < |list| && list[k] == from && Distinct(list)
    requires forall i {:trigger list[i]} :: k <= i < |list| ==> list[i].next == At(list, i + 1)
    modifies block`instrsCount, list
    ensures block.instrsCount == old(block.instrsCount) + (|list| - k)
    ensures forall i {:trigger list[i]} :: 0 <= i < |list| ==> list[i].next == old(list[i].next) && list[i].prev == old(list[i].prev)
    ensures forall i {:trigger list[i]} :: 0 <= i < |list| ==> list[i].parent == if i < k then old(list[i].parent) else block
  {
    hide At;
    var iter: Instruction? := from;
    ghost var j := k;
    AtIn(list, k);
    while iter != null
      invariant k <= j <= |list| && iter == At(list, j) && block.instrsCount == old(block.instrsCount) + (j - k)
      invariant forall i {:trigger list[i]} :: 0 <= i < |list| ==> list[i].next == old(list[i].next) && list[i].prev == old(list[i].prev)
      invariant forall i {:trigger list[i]} :: 0 <= i < |list| ==>
        list[i].parent == if k <= i < j then block else old(list[i].parent)
      decreases |list| - j
    {
      AtIn(list, j);
      iter.parent := block;
      block.instrsCount := block.instrsCount + 1;
      iter := iter.next;
      j := j + 1;
    }
    AtIn(list, j);
  }

  lemma AtIn(list: seq<Instruction>, i: nat)
    ensures if i < |list| then At(list, i) == list[i] else At(list, i) == null
  {
  }

  lemma PhiCount(list: seq<Instruction>, phis: nat)
    requires PhisFirst(list, phis)
    ensures phis <= |list|
  {
  }

  lemma RemovedSize(list: seq<Instruction>, k: nat)
    requires k < |list|
    ensures |Removed(list, k)| == |list| - 1
  {
  }

  lemma InsertedSize(list: seq<Instruction>, k: nat, x: Instruction)
    requires k <= |list|
    ensures |Inserted(list, k, x)| == |list| + 1
  {
  }

  lemma PhiAt(list: seq<Instruction>, phis: nat, k: nat)
    requires PhisFirst(list, phis) && k < |list|
    ensures phis <= |list| && (list[k].phi <==> k < phis)
  {
  }

  /** Around a place where an instruction may come in. */
  lemma EndsIn(block: BasicBlock, list: seq<Instruction>, k: nat)
    requires Chain(block, list) && k <= |list|
    ensures Distinct(list) && At(list, -1) == null
    ensures if k > 0 then At(list, k - 1) == list[k - 1] && list[k - 1] in list && list[k - 1].next == At(list, k) else At(list, k - 1) == null
    ensures if k < |list| then At(list, k) == list[k] && list[k] in list && list[k].prev == At(list, k - 1) else At(list, k) == null
  {
    if k > 0 { Neighbours(block, list, k - 1); }
    if k < |list| { Neighbours(block, list, k); }
  }

  /** The ends after an instruction went. */
  lemma RemovedEnds(list: seq<Instruction>, k: nat, phis: nat)
    requires k < |list| && phis < |list|
    ensures |Removed(list, k)| == |list| - 1
    ensures var l := Removed(list, k);
      && At(l, 0) == (if k == 0 then At(list, 1) else At(list, 0))
      && At(l, |l| - 1) == (if k == |list| - 1 then At(list, |list| - 2) else At(list, |list| - 1))
      && At(l, phis) == (if phis < k then At(list, phis) else At(list, phis + 1))
      && At(l, phis - 1) == (if phis - 1 < k then At(list, phis - 1) else At(list, phis))
  {
  }

  /** The ends after an instruction came in. */
  lemma InsertedEnds(list: seq<Instruction>, k: nat, x: Instruction, phis: nat)
    requires k <= |list| && phis <= |list|
    ensures |Inserted(list, k, x)| == |list| + 1
    ensures var l := Inserted(list, k, x);
      && At(l, 0) == (if k == 0 then x else At(list, 0))
      && At(l, |l| - 1) == (if k == |list| then x else At(list, |list| - 1))
      && At(l, phis) == (if phis < k then At(list, phis) else if phis == k then x else At(list, phis - 1))
      && At(l, phis + 1) == (if phis + 1 < k then At(list, phis + 1) else if phis + 1 == k then x else At(list, phis))
      && At(l, phis - 1) == (if phis - 1 < k then At(list, phis - 1) else if phis - 1 == k then x else At(list, phis - 2))
  {
  }
}
