/** From fetched posts to the one text sent for scoring (app.py:137-141):
    clean every post's text, then append each cleaned text and a '.'. */
module Aggregate {
  import opened Results
  import opened TextCleaner

  /** The record `gettweets` collects for each post. */
  datatype Post = Post(createdAt: string, screenName: string, fullText: string)

  /** Lines 137-138: the `full_text_formatted` column. A frame built from no
      posts has no `full_text` column, so indexing it raises KeyError. */
  function FormattedColumn(posts: seq<Post>): (r: Result<seq<string>>)
    ensures r.Err? <==> posts == []
    ensures r.Err? ==> r.error == MissingFrameColumn("full_text")
    ensures r.Ok? ==> |r.value| == |posts|
    ensures r.Ok? ==> forall i :: 0 <= i < |posts| ==> r.value[i] == CleanText(posts[i].fullText)
  {
    if posts == [] then Err(MissingFrameColumn("full_text"))
    else Ok(seq(|posts|, i requires 0 <= i < |posts| => CleanText(posts[i].fullText)))
  }

  /** Each text followed by '.', concatenated in order. */
  function Joined(texts: seq<string>): string {
    if texts == [] then "" else texts[0] + "." + Joined(texts[1..])
  }

  function TotalLength(texts: seq<string>): nat {
    if texts == [] then 0 else |texts[0]| + TotalLength(texts[1..])
  }

  /** Appending one more text appends it and its '.' to the aggregate. */
  lemma {:induction false} JoinedSnoc(texts: seq<string>, t: string)
    ensures Joined(texts + [t]) == Joined(texts) + t + "."
  {
    if texts == [] {
      assert [] + [t] == [t];
    } else {
      assert (texts + [t])[1..] == texts[1..] + [t];
      JoinedSnoc(texts[1..], t);
    }
  }

  /** The aggregate is as long as all texts together plus one '.' per text. */
  lemma {:induction false} JoinedLength(texts: seq<string>)
    ensures |Joined(texts)| == TotalLength(texts) + |texts|
  {
    if texts != [] {
      JoinedLength(texts[1..]);
    }
  }

  /** Joining distributes over concatenation of the list of texts. */
  lemma {:induction false} JoinedConcat(a: seq<string>, b: seq<string>)
    ensures Joined(a + b) == Joined(a) + Joined(b)
  {
    if a != [] {
      assert (a + b)[1..] == a[1..] + b;
      JoinedConcat(a[1..], b);
    } else {
      assert a + b == b;
    }
  }

  /** If every text is made of allowed characters, so is the aggregate: the
      separator '.' is itself allowed. */
  lemma {:induction false} JoinedAllowed(texts: seq<string>)
    requires forall i :: 0 <= i < |texts| ==> forall c :: c in texts[i] ==> Allowed(c)
    ensures forall c :: c in Joined(texts) ==> Allowed(c)
  {
    if texts != [] {
      JoinedAllowed(texts[1..]);
    }
  }

  /** Lines 139-141: the loop that accumulates `text`. */
  method AggregateText(texts: seq<string>) returns (text: string)
    ensures text == Joined(texts)
    ensures |text| == TotalLength(texts) + |texts|
    ensures texts == [] ==> text == ""
  {
    text := "";
    for i := 0 to |texts|
      invariant text == Joined(texts[..i])
    {
      JoinedSnoc(texts[..i], texts[i]);
      assert texts[..i + 1] == texts[..i] + [texts[i]];
      text := text + texts[i] + ".";
    }
    assert texts[..|texts|] == texts;
    JoinedLength(texts);
  }

  /** The text sent for scoring holds only ASCII letters, digits, spaces,
      newlines and '.', whatever the posts contained; with no posts the
      column lookup fails before any text exists. */
  lemma ScoredTextAllowed(posts: seq<Post>)
    ensures FormattedColumn(posts).Ok? ==> forall c :: c in Joined(FormattedColumn(posts).value) ==> Allowed(c)
  {
    if posts != [] {
      JoinedAllowed(FormattedColumn(posts).value);
    }
  }
}
