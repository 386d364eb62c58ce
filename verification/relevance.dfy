/** The keyword filter `is_job_relevant`. The required-keyword part of the
    source is the constant `true`, so only the exclusion list matters. */
module Relevance {
  import opened Text

  /** The excluded keywords of the default configuration. */
  const DefaultExcludedKeywords: seq<string> := ["5+ years", "4+ years", "manager", "director"]

  /** Some excluded keyword, lower-cased, occurs in `titleLower` (the `any(...)` of the source). */
  function AnyExcluded(titleLower: string, excluded: seq<string>): bool {
    if excluded == [] then false
    else Contains(titleLower, Lower(excluded[0])) || AnyExcluded(titleLower, excluded[1..])
  }

  /** `AnyExcluded` is an existential over the keyword list. */
  lemma {:induction false} AnyExcludedIff(titleLower: string, excluded: seq<string>)
    ensures AnyExcluded(titleLower, excluded) <==> exists k :: k in excluded && Contains(titleLower, Lower(k))
  {
    if excluded != [] {
      AnyExcludedIff(titleLower, excluded[1..]);
      if Contains(titleLower, Lower(excluded[0])) {
        assert excluded[0] in excluded;
      } else if AnyExcluded(titleLower, excluded[1..]) {
        var k :| k in excluded[1..] && Contains(titleLower, Lower(k));
        assert k in excluded;
      } else {
        forall k | k in excluded
          ensures !Contains(titleLower, Lower(k))
        {
          if k != excluded[0] {
            assert k in excluded[1..];
          }
        }
      }
    }
  }

  /** `is_job_relevant(title)` with `excluded` as the configured excluded keywords. */
  function IsJobRelevant(title: string, excluded: seq<string>): bool {
    !AnyExcluded(Lower(title), excluded)
  }

  /** Keyword `k`, lower-cased, occurs somewhere in `title`, lower-cased. */
  ghost predicate KeywordOccurs(k: string, title: string) {
    exists i :: OccursAt(Lower(k), Lower(title), i)
  }

  /** A title is relevant exactly when no excluded keyword occurs in it as a
      substring, both sides compared in lower case. */
  lemma {:induction false} RelevantIff(title: string, excluded: seq<string>)
    ensures IsJobRelevant(title, excluded) <==> forall k :: k in excluded ==> !KeywordOccurs(k, title)
  {
    AnyExcludedIff(Lower(title), excluded);
    forall k | k in excluded
      ensures Contains(Lower(title), Lower(k)) <==> KeywordOccurs(k, title)
    {
      ContainsIff(Lower(title), Lower(k));
    }
  }

  /** Relevance ignores the case of the title. */
  lemma RelevanceIgnoresCase(title: string, excluded: seq<string>)
    ensures IsJobRelevant(Lower(title), excluded) == IsJobRelevant(title, excluded)
  {
    LowerIdempotent(title);
  }

  /** An empty excluded keyword rejects every title, as `"" in s` is always true in Python. */
  lemma EmptyKeywordExcludesAll(title: string, excluded: seq<string>)
    requires "" in excluded
    ensures !IsJobRelevant(title, excluded)
  {
    RelevantIff(title, excluded);
    assert OccursAt(Lower(""), Lower(title), 0);
    assert KeywordOccurs("", title);
  }

  /** Under the default configuration, a title holding one of the default
      keywords verbatim is rejected. */
  lemma DefaultKeywordRejects(title: string, k: string, i: int)
    requires k in DefaultExcludedKeywords && OccursAt(k, title, i)
    ensures !IsJobRelevant(title, DefaultExcludedKeywords)
  {
    RelevantIff(title, DefaultExcludedKeywords);
    LowerKeepsOccurrence(k, title, i);
    assert KeywordOccurs(k, title);
  }

  /** "Senior Data Engineer (5+ years)" is rejected by the default list. */
  lemma ExperienceBoundExample()
    ensures !IsJobRelevant("Senior Data Engineer (5+ years)", DefaultExcludedKeywords)
  {
    assert OccursAt("5+ years", "Senior Data Engineer (5+ years)", 22);
    DefaultKeywordRejects("Senior Data Engineer (5+ years)", "5+ years", 22);
  }

  /** The upper-case partner of a lower-case ASCII letter; other characters
      stand for themselves. */
  function UpperOf(c: char): char {
    if 'a' <= c <= 'z' then (c as int - 32) as char else c
  }

  /** A keyword holding a non-upper-case character that the title lacks in
      both cases does not occur in the title. */
  lemma KeywordAbsent(k: string, title: string, c: char)
    requires c in k && !IsUpper(c) && c !in title && UpperOf(c) !in title
    ensures !KeywordOccurs(k, title)
  {
    var j :| 0 <= j < |k| && k[j] == c;
    assert Lower(k)[j] == c;
    forall i | 0 <= i < |title|
      ensures Lower(title)[i] != c
    {
      assert title[i] != c && title[i] != UpperOf(c);
    }
    AbsentCharBlocks(Lower(k), Lower(title), c);
  }

  /** "Data Engineer" passes the default list: it has no '5', no '4', no 'm'
      and no 'o', in either case. */
  lemma PlainTitleExample()
    ensures IsJobRelevant("Data Engineer", DefaultExcludedKeywords)
  {
    PlainTitleLacksExperience();
    PlainTitleLacksRank();
    RelevantAmongFour("Data Engineer", "5+ years", "4+ years", "manager", "director");
  }

  /** Neither experience bound occurs in "Data Engineer": it has no digit. */
  lemma PlainTitleLacksExperience()
    ensures !KeywordOccurs("5+ years", "Data Engineer") && !KeywordOccurs("4+ years", "Data Engineer")
  {
    KeywordAbsent("5+ years", "Data Engineer", '5');
    KeywordAbsent("4+ years", "Data Engineer", '4');
  }

  /** Neither rank keyword occurs in "Data Engineer": it has no 'm' and no 'o'. */
  lemma PlainTitleLacksRank()
    ensures !KeywordOccurs("manager", "Data Engineer") && !KeywordOccurs("director", "Data Engineer")
  {
    KeywordAbsent("manager", "Data Engineer", 'm');
    KeywordAbsent("director", "Data Engineer", 'o');
  }

  /** A title in which none of four keywords occurs is relevant under the list of those four. */
  lemma RelevantAmongFour(title: string, a: string, b: string, c: string, d: string)
    requires !KeywordOccurs(a, title) && !KeywordOccurs(b, title)
    requires !KeywordOccurs(c, title) && !KeywordOccurs(d, title)
    ensures IsJobRelevant(title, [a, b, c, d])
  {
    RelevantIff(title, [a, b, c, d]);
  }
}
