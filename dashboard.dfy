/**
 * The list rules of the dashboard page: the message preview, the read-more
 * toggle, the delivered/scheduled label, and the page state that a delete or
 * a toggle replaces.
 */
module Dashboard {
  import opened Wrappers
  import opened TimeCapsule
  import EmailScheduler
  import CapsuleRoutes

  /** How many characters of a collapsed message are shown. */
  const PreviewLength: nat := 80

  /**
   * The message text of a card: in full when expanded; otherwise cut to its
   * first 80 characters plus "..." when longer than 80.
   */
  function Preview(message: string, expanded: bool): (shown: string)
    ensures expanded ==> shown == message
    ensures !expanded && |message| > PreviewLength ==> shown == message[..PreviewLength] + "..."
    ensures !expanded && |message| <= PreviewLength ==> shown == message
  {
    if expanded then message
    else if |message| > PreviewLength then message[..PreviewLength] + "..."
    else message
  }

  /** The read-more button is rendered only for messages longer than 80 characters. */
  predicate HasReadMore(message: string): (shown: bool)
    ensures shown ==> |Preview(message, false)| == PreviewLength + 3
    ensures !shown ==> Preview(message, false) == message
  {
    |message| > PreviewLength
  }

  /** The button's caption. */
  function ToggleCaption(expanded: bool): (caption: string)
    ensures caption == "Show less" <==> expanded
    ensures caption == "Read more" <==> !expanded
  {
    if expanded then "Show less" else "Read more"
  }

  /** The card's status line. */
  function StatusLabel(isDelivered: bool): (text: string)
    ensures text == "Delivered" <==> isDelivered
    ensures text == "Scheduled" <==> !isDelivered
  {
    if isDelivered then "Delivered" else "Scheduled"
  }

  /**
   * A collapsed preview starts with the message's first characters and is at
   * most 83 long; it is exactly 83 long when there is a read-more button, and
   * it is the whole message when there is none, so expanding adds nothing.
   */
  lemma PreviewBounds(message: string)
    ensures |Preview(message, false)| <= PreviewLength + 3
    ensures HasReadMore(message) ==>
              |Preview(message, false)| == PreviewLength + 3
              && Preview(message, false)[..PreviewLength] == message[..PreviewLength]
    ensures !HasReadMore(message) ==> Preview(message, false) == Preview(message, true)
  {
  }

  /** `toggleExpand(id)`: collapse the card if it is the expanded one, else expand it. */
  function Toggled(expandedId: Option<Id>, id: Id): (r: Option<Id>)
    ensures r == None <==> expandedId == Some(id)
    ensures r != None ==> r == Some(id)
  {
    if expandedId == Some(id) then None else Some(id)
  }

  /**
   * Toggling the same card twice restores the previous state when no other
   * card was expanded; when another card was expanded, the first toggle
   * collapses that one and the second collapses this one, so nothing is left
   * expanded.
   */
  lemma ToggleTwiceRestores(expandedId: Option<Id>, id: Id)
    ensures expandedId == None || expandedId == Some(id) ==> Toggled(Toggled(expandedId, id), id) == expandedId
    ensures expandedId != None && expandedId != Some(id) ==> Toggled(Toggled(expandedId, id), id) == None
  {
  }

  /** `capsules.filter(capsule => capsule._id !== id)`. */
  function Without(list: seq<Capsule>, id: Id): (r: seq<Capsule>)
    ensures |r| <= |list|
    ensures forall c :: c in r ==> c in list && c.id != id
  {
    if list == [] then []
    else
      assert list == [list[0]] + list[1..];
      if list[0].id != id then [list[0]] + Without(list[1..], id)
      else Without(list[1..], id)
  }

  /** The filter removes every copy of the deleted capsule and keeps every other entry as often as it occurred. */
  lemma {:induction false} WithoutCounts(list: seq<Capsule>, id: Id, c: Capsule)
    ensures multiset(Without(list, id))[c] == if c.id == id then 0 else multiset(list)[c]
  {
    if list != [] {
      WithoutCounts(list[1..], id, c);
      assert list == [list[0]] + list[1..];
    }
  }

  /** The filter keeps the surviving entries in their original order: it distributes over concatenation. */
  lemma {:induction false} WithoutAppend(a: seq<Capsule>, b: seq<Capsule>, id: Id)
    ensures Without(a + b, id) == Without(a, id) + Without(b, id)
  {
    if a == [] {
      assert a + b == b;
    } else {
      assert (a + b)[0] == a[0] && (a + b)[1..] == a[1..] + b;
      WithoutAppend(a[1..], b, id);
      if a[0].id != id {
        assert Without(a + b, id) == [a[0]] + (Without(a[1..], id) + Without(b, id));
      }
    }
  }

  /** A list with no entry for the identifier is left as it is. */
  lemma {:induction false} WithoutAbsent(list: seq<Capsule>, id: Id)
    requires forall k :: 0 <= k < |list| ==> list[k].id != id
    ensures Without(list, id) == list
  {
    if list != [] {
      WithoutAbsent(list[1..], id);
    }
  }

  /** Dropping entries from a newest-first list keeps it newest first. */
  lemma {:induction false} WithoutKeepsNewestFirst(list: seq<Capsule>, id: Id)
    requires CapsuleRoutes.NewestFirst(list)
    ensures CapsuleRoutes.NewestFirst(Without(list, id))
  {
    if list != [] {
      var head, tail := list[0], list[1..];
      assert CapsuleRoutes.NewestFirst(tail);
      WithoutKeepsNewestFirst(tail, id);
      if head.id != id {
        CapsuleRoutes.HeadIsNewest(list);
        CapsuleRoutes.NewestFirstCons(head, Without(tail, id));
      }
    }
  }

  /**
   * After a delete the server accepted, the locally filtered list holds the
   * same capsules, newest first, as a fresh listing of the server's store
   * would: the page does not need to re-fetch.
   */
  lemma LocalDeleteMatchesRefetch(m: map<Id, Capsule>, user: UserId, list: seq<Capsule>, id: Id)
    requires WellKeyed(m) && CapsuleRoutes.FindOwned(m, id, user) != None
    requires multiset(list) == multiset(OwnedBy(m, user)) && CapsuleRoutes.NewestFirst(list)
    ensures multiset(Without(list, id)) == multiset(OwnedBy(CapsuleRoutes.AfterDelete(m, id, user), user))
    ensures CapsuleRoutes.NewestFirst(Without(list, id))
  {
    WithoutKeepsNewestFirst(list, id);
    CapsuleRoutes.DeleteRemovesExactlyOne(m, id, user);
    var lhs := multiset(Without(list, id));
    var rhs := multiset(OwnedBy(CapsuleRoutes.AfterDelete(m, id, user), user));
    forall c ensures lhs[c] == rhs[c] {
      WithoutCounts(list, id, c);
      if c.id == id {
        assert c !in Without(list, id);
        if c in OwnedBy(m, user) {
          var k :| k in m && m[k].user == user && c == m[k];
        }
      }
    }
    assert lhs == rhs;
  }

  /**
   * After a cycle that processed the capsules of `order` (all of them due),
   * each of them shows "Delivered", and every other capsule keeps its label.
   */
  lemma LabelAfterCycle(m: map<Id, Capsule>, now: Time, order: seq<Id>, id: Id)
    requires forall i :: i in order ==> i in EmailScheduler.DueIds(m, now)
    requires id in m
    ensures id in order ==> StatusLabel(EmailScheduler.MarkDelivered(m, order)[id].isDelivered) == "Delivered"
    ensures id !in order ==>
              StatusLabel(EmailScheduler.MarkDelivered(m, order)[id].isDelivered) == StatusLabel(m[id].isDelivered)
  {
  }

  /** The page state: the fetched capsules and the one expanded card, if any. */
  class DashboardView {
    var capsules: seq<Capsule>
    var expandedId: Option<Id>

    constructor ()
      ensures capsules == [] && expandedId == None
    {
      capsules := [];
      expandedId := None;
    }

    /** `setCapsules(res.data)` after the list request returned. */
    method Load(fetched: seq<Capsule>)
      modifies this`capsules
      ensures capsules == fetched
    {
      capsules := fetched;
    }

    /** The message a card currently shows. */
    function ShownMessage(c: Capsule): (shown: string)
      reads this
      ensures expandedId == Some(c.id) ==> shown == c.message
      ensures expandedId != Some(c.id) ==> shown == Preview(c.message, false)
    {
      Preview(c.message, expandedId == Some(c.id))
    }

    /**
     * `handleDelete(id)`: when the server accepted the delete, drop every entry
     * with that identifier; when the request failed, keep the list.
     */
    method HandleDelete(id: Id, accepted: bool)
      modifies this`capsules
      ensures accepted ==> capsules == Without(old(capsules), id)
      ensures !accepted ==> capsules == old(capsules)
      ensures forall c :: c in capsules ==> c in old(capsules)
    {
      if accepted {
        capsules := Without(capsules, id);
      }
    }

    /** `toggleExpand(id)`. */
    method ToggleExpand(id: Id)
      modifies this`expandedId
      ensures expandedId == Toggled(old(expandedId), id)
      ensures forall c: Capsule :: c.id != id ==> ShownMessage(c) == Preview(c.message, false)
    {
      expandedId := Toggled(expandedId, id);
    }
  }
}
