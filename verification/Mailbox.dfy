/**
 From a mailbox to the caller of Get. A mailbox is a SynchList of addresses of mails: Put stores a mail
 and appends its address, and Get removes an address and reads the mail there.
 */
module Mailboxes {
  import opened MailFormat
  import opened Semaphores
  import opened Subsequences
  import PostOffices
  import opened SynchLists

  type Heap = map<nat, Mail>

  predicate Holds(heap: Heap, item: Item, mail: Mail) {
    item.Pointer? && item.address in heap && heap[item.address] == mail
  }

  /** Nobody writes to a mail whose address is on the list. */
  ghost predicate Untouched(s: State, heap: Heap, s': State, heap': Heap) {
    forall item | item in s.list && item in s'.list && item.Pointer? && item.address in heap ::
      Holds(heap', item, heap[item.address])
  }

  /** What is appended, if anything, is the address of the next of the mails. */
  ghost predicate Puts(s: State, s': State, heap': Heap, mail: seq<Mail>) {
    |s'.appended| > |s.appended| ==>
      |s.appended| < |mail| && Holds(heap', s'.appended[|s.appended|], mail[|s.appended|])
  }

  /**
   The mails, by address, and what memory holds in each state of the list. Addresses of mails that have
   been taken out may be used again.
   */
  ghost predicate Stored(list: seq<State>, heaps: seq<Heap>, mail: seq<Mail>) {
    && |heaps| == |list|
    && forall i | 0 <= i < |list| - 1 ::
         Puts(list[i], list[i + 1], heaps[i + 1], mail) && Untouched(list[i], heaps[i], list[i + 1], heaps[i + 1])
  }

  /** What the list holds in a state are the mails after those removed, in order. */
  ghost predicate InTurn(s: State, heap: Heap, mail: seq<Mail>) {
    && |s.removed| + |s.list| <= |mail|
    && forall p | 0 <= p < |s.list| :: Holds(heap, s.list[p], mail[|s.removed| + p])
  }

  /** What Get returns, if the step removes an item: what memory holds at its address. */
  ghost function Returned(s: State, heap: Heap, s': State): seq<Mail> {
    var item := TakeFirst(s.list).0;
    if |s'.removed| > |s.removed| && item.Pointer? && item.address in heap then [heap[item.address]] else []
  }

  /** The mails that Get has returned by state j. */
  ghost function Got(list: seq<State>, heaps: seq<Heap>, j: nat): seq<Mail>
    requires |heaps| == |list| && j < |list|
  {
    if j == 0 then [] else Got(list, heaps, j - 1) + Returned(list[j - 1], heaps[j - 1], list[j])
  }

  /** How a step changes the list. */
  datatype Change = Same | Appended(item: Item) | Removed

  lemma ListStep(s: State, s': State) returns (c: Change)
    requires Inv(s) && Next(s, s')
    ensures c.Same? ==> s'.list == s.list && s'.removed == s.removed && s'.appended == s.appended
    ensures c.Appended? ==>
      s'.list == s.list + [c.item] && s'.removed == s.removed && s'.appended == s.appended + [c.item]
    ensures c.Removed? ==>
      && s.list != [] && s'.list == s.list[1..]
      && s'.removed == s.removed + [s.list[0]] && s'.appended == s.appended
  {
    var t: Tid :| Step(s, t, s');
    c := match s.places[t]
      case Appending(item) => Appended(item)
      case Taking(_) => Removed
      case _ => Same;
  }

  /** A step keeps the list in turn, and Get returns the next mail if it returns any. */
  lemma TurnKept(s: State, heap: Heap, s': State, heap': Heap, mail: seq<Mail>)
    requires Inv(s) && Next(s, s') && InTurn(s, heap, mail)
    requires Puts(s, s', heap', mail) && Untouched(s, heap, s', heap')
    ensures InTurn(s', heap', mail)
    ensures |s.removed| <= |s'.removed| <= |mail|
    ensures Returned(s, heap, s') == mail[|s.removed|..|s'.removed|]
  {
    var c := ListStep(s, s');
    assert s.appended == s.removed + s.list;
    hide Next, Inv;
    if c.Removed? { assert Holds(heap, s.list[0], mail[|s.removed| + 0]); }
    forall p | 0 <= p < |s'.list| && |s'.removed| + p < |s.removed| + |s.list|
      ensures Holds(heap', s'.list[p], mail[|s'.removed| + p])
    {
      var q := p + |s'.removed| - |s.removed|;
      assert s'.list[p] == s.list[q];
      assert Holds(heap, s.list[q], mail[|s.removed| + q]);
    }
  }

  lemma TurnKeptAt(list: seq<State>, heaps: seq<Heap>, mail: seq<Mail>, i: nat)
    requires IsRun(list) && Stored(list, heaps, mail) && i + 1 < |list| && InTurn(list[i], heaps[i], mail)
    ensures InTurn(list[i + 1], heaps[i + 1], mail)
    ensures |list[i].removed| <= |list[i + 1].removed| <= |mail|
    ensures Returned(list[i], heaps[i], list[i + 1]) == mail[|list[i].removed|..|list[i + 1].removed|]
  {
    RunKeeps(list, i);
    assert Next(list[i], list[i + 1]);
    hide Next, Inv, InTurn, Puts, Untouched, Returned;
    TurnKept(list[i], heaps[i], list[i + 1], heaps[i + 1], mail);
  }

  /** So what Get has returned are the first mails put, each once and in order. */
  lemma {:induction false} GotInTurn(list: seq<State>, heaps: seq<Heap>, mail: seq<Mail>, j: nat)
    requires IsRun(list) && Stored(list, heaps, mail) && |heaps| == |list| && j < |list|
    ensures InTurn(list[j], heaps[j], mail)
    ensures |list[j].removed| <= |mail| && Got(list, heaps, j) == mail[..|list[j].removed|]
  {
    if j == 0 {
      assert Init(list[0]);
    } else {
      hide IsRun, Stored, InTurn, Returned;
      GotInTurn(list, heaps, mail, j - 1);
      TurnKeptAt(list, heaps, mail, j - 1);
      var m, n := |list[j - 1].removed|, |list[j].removed|;
      assert mail[..n] == mail[..m] + mail[m..n];
    }
  }

  /** Get's item is never Null, so the assertion in Remove holds for mailboxes. */
  lemma GetFindsMail(list: seq<State>, heaps: seq<Heap>, mail: seq<Mail>, j: nat, t: Tid)
    requires IsRun(list) && Stored(list, heaps, mail) && j < |list|
    requires t < |list[j].places| && list[j].places[t].Taking?
    ensures |list[j].removed| < |mail|
    ensures Holds(heaps[j], TakeFirst(list[j].list).0, mail[|list[j].removed|])
  {
    RunKeeps(list, j);
    GotInTurn(list, heaps, mail, j);
    assert list[j].list[0] == TakeFirst(list[j].list).0;
  }

  function InBox(box: nat): Mail -> bool {
    (m: Mail) => m.mailHdr.to == box
  }

  function BySender(sender: nat): Mail -> bool {
    (m: Mail) => m.pktHdr.from == sender
  }

  lemma BoxBySender(put: seq<Mail>, sender: nat, box: nat)
    ensures Filter(Filter(put, InBox(box)), BySender(sender)) == Filter(put, PostOffices.From(sender, box))
  {
    FilterTwice(put, InBox(box), BySender(sender), PostOffices.From(sender, box));
  }

  /**
   What the callers of Get have been returned from a mailbox is, of each sender, a subsequence of what
   that sender addressed to it.
   */
  lemma GotInOrder(run: seq<PostOffices.State>, boxes: nat, k: nat, i: nat, sender: nat, box: nat,
                   list: seq<State>, heaps: seq<Heap>, j: nat)
    requires PostOffices.IsRun(run, boxes) && k < |run| && i < |run[k].machines|
    requires IsRun(list) && j < |list|
    requires Stored(list, heaps, Filter(run[k].machines[i].put, InBox(box)))
    ensures Got(list, heaps, j) <= Filter(run[k].machines[i].put, InBox(box))
    ensures Subsequence(Filter(Got(list, heaps, j), BySender(sender)),
                        Filter(run[k].sent, PostOffices.FromTo(sender, i, box)))
  {
    assert |heaps| == |list|;
    hide *;
    var put := run[k].machines[i].put;
    var mail, n := Filter(put, InBox(box)), |list[j].removed|;
    GotInTurn(list, heaps, mail, j);
    PostOffices.MailInOrder(run, boxes, k, i, sender, box);
    BoxBySender(put, sender, box);
    assert mail == mail[..n] + mail[n..];
    FilterPrefix(mail[..n], mail[n..], BySender(sender));
    SubsequenceAfter(Filter(mail[..n], BySender(sender)), Filter(mail, BySender(sender)),
                     Filter(run[k].sent, PostOffices.FromTo(sender, i, box)));
  }
}
