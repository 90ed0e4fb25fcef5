/**
 * The FAQ section of the landing page: the set of open question indices
 * and the toggle that opens or closes one of them.
 */
module FaqSection {

  /** The set after toggling `index`: its membership flips, every other
      index keeps its own. */
  function Toggled(open: set<int>, index: int): (r: set<int>)
    ensures index in r <==> index !in open
    ensures forall j :: j != index ==> (j in r <==> j in open)
  {
    if index in open then open - {index} else open + {index}
  }

  /** Toggling the same index twice gives the original set back. */
  lemma ToggleTwice(open: set<int>, index: int)
    ensures Toggled(Toggled(open, index), index) == open
  {
  }

  /** Toggles of different indices commute. */
  lemma TogglesCommute(open: set<int>, i: int, j: int)
    ensures Toggled(Toggled(open, i), j) == Toggled(Toggled(open, j), i)
  {
  }

  class Faq {
    var openItems: set<int>

    /** Initially every item is closed. */
    constructor ()
      ensures openItems == {}
    {
      openItems := {};
    }

    /** Whether the item at `index` is shown open. */
    predicate IsOpen(index: int)
      reads this
    {
      index in openItems
    }

    /** `toggleItem`: copy the set, delete or add the index, store the copy. */
    method ToggleItem(index: int)
      modifies this
      ensures openItems == Toggled(old(openItems), index)
      ensures IsOpen(index) <==> !old(IsOpen(index))
    {
      var newOpenItems := openItems;
      if index in newOpenItems {
        newOpenItems := newOpenItems - {index};
      } else {
        newOpenItems := newOpenItems + {index};
      }
      openItems := newOpenItems;
    }
  }

  /** From a fresh section, opening one item and toggling it again closes
      everything, while two different items stay open together. */
  method OpenTwoCloseOne(i: int, j: int) returns (afterTwice: set<int>, afterPair: set<int>)
    ensures afterTwice == {}
    ensures i != j ==> afterPair == {i, j}
  {
    var faq := new Faq();
    faq.ToggleItem(i);
    faq.ToggleItem(i);
    afterTwice := faq.openItems;
    var other := new Faq();
    other.ToggleItem(i);
    other.ToggleItem(j);
    afterPair := other.openItems;
  }
}
