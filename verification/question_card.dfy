/** The summary card of one question in a list: tag chips with an overflow
    badge, the answer-count label, the status badge colour and the age label. */
module QuestionCard {
  import opened Wrappers
  import opened Text
  import opened Store

  /** The card's props after the list page applied its defaults. */
  datatype Card = Card(
    id: Id,
    title: Option<string>,
    description: Option<string>,
    author: Option<string>,
    tags: seq<string>,
    createdAt: Option<Timestamp>,
    viewCount: int,
    answerCount: int,
    status: string)

  const MaxVisibleTags := 3

  /** The tag chips: the first three tags, in order. */
  function VisibleTags(tags: seq<string>): (r: seq<string>)
    ensures |r| == (if |tags| < MaxVisibleTags then |tags| else MaxVisibleTags)
    ensures r <= tags
  {
    Take(tags, MaxVisibleTags)
  }

  /** The number on the `+n` badge, when the badge is shown. */
  function Overflow(tags: seq<string>): (r: Option<nat>)
    ensures r.Some? <==> |tags| > MaxVisibleTags
  {
    if |tags| > MaxVisibleTags then Some(|tags| - MaxVisibleTags) else None
  }

  /** Every tag is either shown as a chip or counted on the badge, and the
      badge counts exactly the tags after the chips. */
  lemma TagsAccountedFor(tags: seq<string>)
    ensures |VisibleTags(tags)| + Overflow(tags).GetOr(0) == |tags|
    ensures tags == VisibleTags(tags) + tags[|VisibleTags(tags)|..]
    ensures Overflow(tags).GetOr(0) == |tags[|VisibleTags(tags)|..]|
  {
  }

  /** The word after the answer count. */
  function AnswerLabel(count: int): (r: string)
    ensures r == "answer" <==> count == 1
    ensures r == "answer" || r == "answers"
  {
    "answer" + (if count != 1 then "s" else "")
  }

  const OpenColor := "bg-blue-100 text-blue-800"
  const ResolvedColor := "bg-green-100 text-green-800"
  const ClosedColor := "bg-gray-100 text-gray-800"

  /** The status badge's colour classes; an unknown status has none. */
  function StatusColor(status: string): (r: Option<string>)
    ensures r.Some? <==> status == "open" || status == "resolved" || status == "closed"
  {
    if status == "open" then Some(OpenColor)
    else if status == "resolved" then Some(ResolvedColor)
    else if status == "closed" then Some(ClosedColor)
    else None
  }

  /** The three known statuses are told apart by colour. */
  lemma StatusColorsDistinct(s: string, t: string)
    requires StatusColor(s).Some? && StatusColor(t).Some?
    ensures StatusColor(s) == StatusColor(t) <==> s == t
  {
  }

  /** The age label; `formatDistance` stands for the date library's relative
      formatting, which is not part of this model. */
  function TimeLabel(createdAt: Option<Timestamp>, formatDistance: Timestamp -> string): (r: string)
    ensures createdAt.None? ==> r == "Recently"
    ensures createdAt.Some? ==> r == formatDistance(createdAt.value)
  {
    if createdAt.Some? then formatDistance(createdAt.value) else "Recently"
  }
}
