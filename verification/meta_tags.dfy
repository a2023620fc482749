/**
 The page's `<meta>` elements, in document order. `setMetaTag` finds the first
 element carrying a given attribute pair (`document.querySelector`) and sets
 its content, or creates one and appends it to the head.
 */
module MetaTags {

  import opened Options

  datatype MetaTag = MetaTag(attrName: string, attrValue: string, content: string)

  type Head = seq<MetaTag>

  const ProfilePrefix: string := "HatsuneHiku's profile - "

  predicate Matches(t: MetaTag, attrName: string, attrValue: string) {
    t.attrName == attrName && t.attrValue == attrValue
  }

  /** `document.querySelector('meta[attrName="attrValue"]')`: the first matching element, if any. */
  function QuerySelector(head: Head, attrName: string, attrValue: string): (r: Option<nat>)
    ensures r.Some? ==> r.value < |head| && Matches(head[r.value], attrName, attrValue)
    ensures r.Some? ==> forall j :: 0 <= j < r.value ==> !Matches(head[j], attrName, attrValue)
    ensures r.None? <==> forall j :: 0 <= j < |head| ==> !Matches(head[j], attrName, attrValue)
    decreases |head|
  {
    if |head| == 0 then None
    else if Matches(head[0], attrName, attrValue) then Some(0)
    else match QuerySelector(head[1..], attrName, attrValue)
      case None => None
      case Some(i) => Some(i + 1)
  }

  /** What a reader of the page sees in the slot: the content of the first matching element. */
  function Content(head: Head, attrName: string, attrValue: string): Option<string> {
    match QuerySelector(head, attrName, attrValue)
    case None => None
    case Some(i) => Some(head[i].content)
  }

  /** Two heads whose elements carry the same attribute pairs in the same order. */
  predicate SameShape(h1: Head, h2: Head) {
    |h1| == |h2| &&
    forall j :: 0 <= j < |h1| ==> h1[j].attrName == h2[j].attrName && h1[j].attrValue == h2[j].attrValue
  }

  /** Elements are found by their attributes alone, so heads of the same shape answer every query alike. */
  lemma {:induction false} SameShapeSameQuery(h1: Head, h2: Head, attrName: string, attrValue: string)
    requires SameShape(h1, h2)
    ensures QuerySelector(h1, attrName, attrValue) == QuerySelector(h2, attrName, attrValue)
    decreases |h1|
  {
    if |h1| > 0 && !Matches(h1[0], attrName, attrValue) {
      assert SameShape(h1[1..], h2[1..]);
      SameShapeSameQuery(h1[1..], h2[1..], attrName, attrValue);
    }
  }

  /** Appending an element does not change the answer for a pair the head already holds, nor for a pair the new element does not carry. */
  lemma {:induction false} AppendQuery(head: Head, t: MetaTag, attrName: string, attrValue: string)
    ensures QuerySelector(head, attrName, attrValue).Some? ==>
      QuerySelector(head + [t], attrName, attrValue) == QuerySelector(head, attrName, attrValue)
    ensures QuerySelector(head, attrName, attrValue).None? && !Matches(t, attrName, attrValue) ==>
      QuerySelector(head + [t], attrName, attrValue).None?
    ensures QuerySelector(head, attrName, attrValue).None? && Matches(t, attrName, attrValue) ==>
      QuerySelector(head + [t], attrName, attrValue) == Some(|head|)
    decreases |head|
  {
    if |head| > 0 && !Matches(head[0], attrName, attrValue) {
      assert (head + [t])[1..] == head[1..] + [t];
      AppendQuery(head[1..], t, attrName, attrValue);
    }
  }

  /** Upsert: overwrite the content of the first matching element, or append a new one. */
  function SetMetaTag(head: Head, attrName: string, attrValue: string, content: string): (r: Head)
    ensures Content(r, attrName, attrValue) == Some(content)
    ensures forall a, v :: (a, v) != (attrName, attrValue) ==> Content(r, a, v) == Content(head, a, v)
    ensures QuerySelector(head, attrName, attrValue).None? ==> r == head + [MetaTag(attrName, attrValue, content)]
    ensures QuerySelector(head, attrName, attrValue).Some? ==> SameShape(r, head)
    ensures QuerySelector(head, attrName, attrValue).Some? ==>
      forall j :: 0 <= j < |head| && j != QuerySelector(head, attrName, attrValue).value ==> r[j] == head[j]
  {
    match QuerySelector(head, attrName, attrValue)
    case None =>
      var r := head + [MetaTag(attrName, attrValue, content)];
      AppendQuery(head, MetaTag(attrName, attrValue, content), attrName, attrValue);
      forall a, v | (a, v) != (attrName, attrValue)
        ensures Content(r, a, v) == Content(head, a, v)
      {
        AppendQuery(head, MetaTag(attrName, attrValue, content), a, v);
        if QuerySelector(head, a, v).Some? {
          assert r[QuerySelector(head, a, v).value] == head[QuerySelector(head, a, v).value];
        }
      }
      r
    case Some(i) =>
      var r := head[i := head[i].(content := content)];
      assert SameShape(r, head);
      forall a, v
        ensures QuerySelector(r, a, v) == QuerySelector(head, a, v)
      {
        SameShapeSameQuery(r, head, a, v);
      }
      r
  }

  /** Setting a slot to the content it already shows leaves the head as it is. */
  lemma SetShownContentIsIdentity(head: Head, attrName: string, attrValue: string, content: string)
    requires Content(head, attrName, attrValue) == Some(content)
    ensures SetMetaTag(head, attrName, attrValue, content) == head
  {
    var i := QuerySelector(head, attrName, attrValue).value;
    assert head[i := head[i].(content := content)] == head;
  }

  /** `updateMetaTags`: the description into og:description and twitter:description, the prefixed one into description. */
  function UpdateMetaTags(head: Head, description: string): (r: Head)
    ensures Shows(r, description)
    ensures forall a, v :: !IsDescriptionSlot(a, v) ==> Content(r, a, v) == Content(head, a, v)
  {
    var h1 := SetMetaTag(head, "property", "og:description", description);
    var h2 := SetMetaTag(h1, "name", "twitter:description", description);
    SetMetaTag(h2, "name", "description", ProfilePrefix + description)
  }

  predicate IsDescriptionSlot(attrName: string, attrValue: string) {
    (attrName, attrValue) in {("property", "og:description"), ("name", "twitter:description"), ("name", "description")}
  }

  /** The three description slots show `description`. */
  predicate Shows(head: Head, description: string) {
    && Content(head, "property", "og:description") == Some(description)
    && Content(head, "name", "twitter:description") == Some(description)
    && Content(head, "name", "description") == Some(ProfilePrefix + description)
  }

  /** Recomputing tags that already show the description changes nothing, and in particular adds no element. */
  lemma UpdateShownIsIdentity(head: Head, description: string)
    requires Shows(head, description)
    ensures UpdateMetaTags(head, description) == head
  {
    SetShownContentIsIdentity(head, "property", "og:description", description);
    SetShownContentIsIdentity(head, "name", "twitter:description", description);
    SetShownContentIsIdentity(head, "name", "description", ProfilePrefix + description);
  }

  /** Writing the tags twice is the same as writing them once. */
  lemma UpdateIdempotent(head: Head, description: string)
    ensures UpdateMetaTags(UpdateMetaTags(head, description), description) == UpdateMetaTags(head, description)
  {
    UpdateShownIsIdentity(UpdateMetaTags(head, description), description);
  }
}
