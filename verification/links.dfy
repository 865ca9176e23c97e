/** The toggle that likes and subscriptions share: look the link up; if it is
    there, delete the document found and answer "removed"; otherwise create
    it and answer "created". */
module Links {
  import opened Seqs

  datatype Toggled<T> = Toggled(links: seq<T>, created: bool)

  /** One toggle of `link` in a collection kept in natural order. `findOne`
      returns the first match, so a removal deletes the first occurrence; a
      creation appends. */
  function Toggle<T(==,!new)>(links: seq<T>, link: T): (r: Toggled<T>)
    ensures r.created <==> link !in links
    ensures r.created ==> r.links == links + [link]
    ensures !r.created ==> multiset(r.links) == multiset(links) - multiset{link}
    ensures forall other :: other != link ==> multiset(r.links)[other] == multiset(links)[other]
  {
    if link in links then Toggled(RemoveFirst(links, link), false)
    else Toggled(links + [link], true)
  }

  /** Starting from at most one copy of each link, a toggle keeps it so. */
  lemma TogglePreservesDistinct<T(!new)>(links: seq<T>, link: T)
    requires Distinct(links)
    ensures Distinct(Toggle(links, link).links)
  {
    DistinctMultiset(links);
    var r := Toggle(links, link).links;
    forall x ensures multiset(r)[x] <= 1 {
      if x == link && link !in links {
        assert multiset(links)[link] == 0;
      }
    }
    DistinctMultiset(r);
  }

  /** Two toggles in sequence give one creation and one removal and restore
      the collection: exactly when the first created, up to order when the
      first removed (the re-created link goes to the end). */
  lemma ToggleTwice<T(!new)>(links: seq<T>, link: T)
    requires Distinct(links)
    ensures var first := Toggle(links, link);
            var second := Toggle(first.links, link);
            && second.created == !first.created
            && multiset(second.links) == multiset(links)
            && (first.created ==> second.links == links)
  {
    var first := Toggle(links, link);
    if first.created {
      RemoveFirstAppend(links, link);
    } else {
      DistinctMultiset(links);
      assert multiset(first.links)[link] == 0;
    }
  }

  /** A third toggle does what the first did. */
  lemma ToggleThrice<T(!new)>(links: seq<T>, link: T)
    requires Distinct(links)
    ensures var first := Toggle(links, link);
            var second := Toggle(first.links, link);
            Toggle(second.links, link).created == first.created
  {
    ToggleTwice(links, link);
  }
}
