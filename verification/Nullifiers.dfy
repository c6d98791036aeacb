/** The nullifier service: a growing set of spent markers. */
module Nullifiers {
  import opened ChainEvents

  function Accept(s: set<string>, nullifier: string): set<string> {
    s + {nullifier}
  }

  function AcceptPage(s: set<string>, page: seq<ChainEvent>): set<string> {
    if page == [] then s
    else
      var e, before := page[|page| - 1], AcceptPage(s, page[..|page| - 1]);
      if e.Nullified? then Accept(before, e.nullifier) else before
  }

  lemma AcceptPageStep(s: set<string>, page: seq<ChainEvent>, i: nat)
    requires i < |page|
    ensures var before := AcceptPage(s, page[..i]);
            AcceptPage(s, page[..i + 1]) == if page[i].Nullified? then Accept(before, page[i].nullifier) else before
  {
    assert page[..i + 1][..i] == page[..i];
  }

  /** The set after a page is the set before plus the page's nullifiers, whatever the order. */
  lemma {:induction false} PageMembers(s: set<string>, page: seq<ChainEvent>, n: string)
    ensures n in AcceptPage(s, page) <==> n in s || exists e :: e in page && e.Nullified? && e.nullifier == n
  {
    if page != [] {
      var init, e := page[..|page| - 1], page[|page| - 1];
      assert page == init + [e];
      PageMembers(s, init, n);
    }
  }
}
