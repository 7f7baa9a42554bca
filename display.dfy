/** Small text renderings: the mention line of a manual delivery (index.js:395) and the
    star bar of a review (index.js:897). */
module Display {
  import opened Wrappers
  import opened Text

  /** What `/^\d{17,19}$/` accepts: a chat user id. */
  predicate IsUserId(s: string) { 17 <= |s| <= 19 && AllDigits(s) }

  /** `mention || ''`, then wrapped as `<@id>` when it is a bare user id. */
  function MentionContent(mention: Option<string>): (c: string)
    ensures mention.None? ==> c == ""
    ensures mention.Some? && IsUserId(mention.value) ==> |c| == |mention.value| + 3
    ensures mention.Some? && !IsUserId(mention.value) ==> c == mention.value
  {
    var content := mention.GetOr("");
    if IsUserId(content) then "<@" + content + ">" else content
  }

  /** Reads the user id back out of a `<@id>` mention. */
  function MentionedId(c: string): Option<string> {
    if |c| >= 3 && c[..2] == "<@" && c[|c| - 1] == '>' then Some(c[2..|c| - 1]) else None
  }

  /** A user id is wrapped so that it can be read back; anything else passes through. */
  lemma MentionRoundTrip(id: string)
    requires IsUserId(id)
    ensures MentionedId(MentionContent(Some(id))) == Some(id)
  {
    var c := MentionContent(Some(id));
    assert c == "<@" + id + ">";
    assert c[2..|c| - 1] == id;
  }

  const FullStar: char := '\U{2B50}'
  const EmptyStar: char := '\U{1F311}'

  function Repeat(c: char, n: nat): (s: string)
    ensures |s| == n && forall i :: 0 <= i < n ==> s[i] == c
  {
    if n == 0 then [] else [c] + Repeat(c, n - 1)
  }

  /** `'⭐'.repeat(rating) + '🌑'.repeat(5 - rating)`; `repeat` throws a RangeError for a
      negative count, so the bar exists only for ratings 0 to 5. */
  function Stars(rating: int): (r: Option<string>)
    ensures r.Some? <==> 0 <= rating <= 5
    ensures r.Some? ==> |r.value| == 5
    ensures r.Some? ==> forall i :: 0 <= i < 5 ==> (r.value[i] == FullStar <==> i < rating)
    ensures r.Some? ==> forall i :: 0 <= i < 5 ==> (r.value[i] == EmptyStar <==> rating <= i)
  {
    if 0 <= rating <= 5 then Some(Repeat(FullStar, rating) + Repeat(EmptyStar, 5 - rating))
    else None
  }
}
