/** Card de-duplication: before extraction, cards are de-duplicated by the
    `href` of their first `/jobs/view/` link. */
module CardDedup {
  import opened Wrappers
  import opened Records
  import opened Seqs
  import Extraction

  /** The href of the card's first `/jobs/view/` link: None when the card has
      no such link; the link's href, or "" when the link has none, otherwise. */
  function FirstJobLink(card: Card): Option<string> {
    match card.Select(Extraction.JobViewLink)
    case None => None
    case Some(e) => Some(e.href.GetOr(""))
  }

  /** Card `i` survives: it has no job link, or its first job link is
      non-empty and no earlier card's first job link is the same. */
  ghost predicate Survives(cards: seq<Card>, i: int)
    requires 0 <= i < |cards|
  {
    match FirstJobLink(cards[i])
    case None => true
    case Some(u) => u != "" && forall j :: 0 <= j < i ==> FirstJobLink(cards[j]) != Some(u)
  }

  ghost function SurvivorFlags(cards: seq<Card>): (flags: seq<bool>)
    ensures |flags| == |cards|
  {
    seq(|cards|, i requires 0 <= i < |cards| => Survives(cards, i))
  }

  /** `u` is the non-empty first job link of one of `cards`. */
  ghost predicate LinkSeen(cards: seq<Card>, u: string) {
    u != "" && exists j :: 0 <= j < |cards| && FirstJobLink(cards[j]) == Some(u)
  }

  /** Extending the scanned prefix by one card adds that card's non-empty link. */
  lemma LinkSeenStep(cards: seq<Card>, i: nat)
    requires i < |cards|
    ensures forall u :: LinkSeen(cards[..i + 1], u) <==> LinkSeen(cards[..i], u) || (u != "" && FirstJobLink(cards[i]) == Some(u))
  {
  }

  /** Card `i` survives exactly when it has no job link, or its link is
      non-empty and not among the links of the cards before it. */
  lemma SurvivesIff(cards: seq<Card>, i: nat)
    requires i < |cards|
    ensures Survives(cards, i) <==>
              FirstJobLink(cards[i]).None?
              || (FirstJobLink(cards[i]).value != "" && !LinkSeen(cards[..i], FirstJobLink(cards[i]).value))
  {
  }

  /** The kept cards carry non-empty, pairwise distinct job links, which are
      exactly the links recorded in `seen`. */
  ghost predicate KeptLinks(unique: seq<Card>, seen: set<string>) {
    && (forall a :: 0 <= a < |unique| ==> FirstJobLink(unique[a]) != Some(""))
    && (forall a :: 0 <= a < |unique| && FirstJobLink(unique[a]).Some? ==> FirstJobLink(unique[a]).value in seen)
    && (forall a, b :: 0 <= a < b < |unique| && FirstJobLink(unique[a]).Some?
          ==> FirstJobLink(unique[a]) != FirstJobLink(unique[b]))
    && (forall u :: u in seen ==> exists a :: 0 <= a < |unique| && FirstJobLink(unique[a]) == Some(u))
  }

  /** Keeping a card with a fresh, non-empty link and recording that link
      preserves `KeptLinks`. */
  lemma KeepLinked(unique: seq<Card>, seen: set<string>, card: Card, url: string)
    requires KeptLinks(unique, seen)
    requires FirstJobLink(card) == Some(url) && url != "" && url !in seen
    ensures KeptLinks(unique + [card], seen + {url})
  {
    var unique' := unique + [card];
    assert forall a :: 0 <= a < |unique| ==> unique'[a] == unique[a];
    forall u | u in seen + {url}
      ensures exists a :: 0 <= a < |unique'| && FirstJobLink(unique'[a]) == Some(u)
    {
      if u == url {
        assert FirstJobLink(unique'[|unique|]) == Some(u);
      } else {
        var a :| 0 <= a < |unique| && FirstJobLink(unique[a]) == Some(u);
        assert unique'[a] == unique[a];
      }
    }
  }

  /** Keeping a card without a job link preserves `KeptLinks`. */
  lemma KeepLinkless(unique: seq<Card>, seen: set<string>, card: Card)
    requires KeptLinks(unique, seen)
    requires FirstJobLink(card) == None
    ensures KeptLinks(unique + [card], seen)
  {
    var unique' := unique + [card];
    assert forall a :: 0 <= a < |unique| ==> unique'[a] == unique[a];
    forall u | u in seen
      ensures exists a :: 0 <= a < |unique'| && FirstJobLink(unique'[a]) == Some(u)
    {
      var a :| 0 <= a < |unique| && FirstJobLink(unique[a]) == Some(u);
      assert unique'[a] == unique[a];
    }
  }

  /** The de-duplication loop. The survivors are exactly the cards `Survives`
      names, in input order; kept links are non-empty and pairwise distinct,
      and every non-empty link of the input is kept once. */
  method DedupCards(cards: seq<Card>) returns (unique: seq<Card>)
    ensures unique == FilterBy(cards, SurvivorFlags(cards))
    ensures forall a :: 0 <= a < |unique| ==> FirstJobLink(unique[a]) != Some("")
    ensures forall a, b :: 0 <= a < b < |unique| && FirstJobLink(unique[a]).Some?
              ==> FirstJobLink(unique[a]) != FirstJobLink(unique[b])
    ensures forall u :: LinkSeen(cards, u) ==> exists a :: 0 <= a < |unique| && FirstJobLink(unique[a]) == Some(u)
  {
    ghost var flags := SurvivorFlags(cards);
    unique := [];
    var seen: set<string> := {};
    for i := 0 to |cards|
      invariant unique == FilterBy(cards[..i], flags[..i])
      invariant forall u :: u in seen <==> LinkSeen(cards[..i], u)
      invariant KeptLinks(unique, seen)
    {
      assert cards[..i + 1][..i] == cards[..i];
      assert flags[..i + 1][..i] == flags[..i];
      LinkSeenStep(cards, i);
      SurvivesIff(cards, i);
      var card := cards[i];
      var link := card.Select(Extraction.JobViewLink);
      if link.Some? {
        var url := link.value.href.GetOr("");
        if url != "" && url !in seen {
          assert flags[i];
          KeepLinked(unique, seen, card, url);
          seen := seen + {url};
          unique := unique + [card];
        } else {
          assert !flags[i];
        }
      } else {
        assert flags[i];
        KeepLinkless(unique, seen, card);
        unique := unique + [card];
      }
    }
    assert cards[..|cards|] == cards;
    assert flags[..|cards|] == flags;
  }

  /** De-duplication never adds cards. */
  lemma {:induction false} DedupShrinks(cards: seq<Card>)
    ensures |FilterBy(cards, SurvivorFlags(cards))| <= |cards|
  {
    FilterByShrinks(cards, SurvivorFlags(cards));
  }
}
