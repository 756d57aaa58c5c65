/** The topic panel of src/components/RelatedTopics.tsx: the split of the
    topics into the user's own and the AI-suggested ones, and which buttons
    show as selected. */
module RelatedTopics {
  import opened Types
  import Seqs

  predicate UserMade(t: Topic)
  {
    t.isUserGenerated
  }

  predicate AiMade(t: Topic)
  {
    !t.isUserGenerated
  }

  /** `userGeneratedTopics`. */
  function UserTopics(topics: seq<Topic>): seq<Topic>
  {
    Seqs.Filter(UserMade, topics)
  }

  /** `aiGeneratedTopics`. */
  function AiTopics(topics: seq<Topic>): seq<Topic>
  {
    Seqs.Filter(AiMade, topics)
  }

  /** Each list holds exactly the topics of its kind. */
  lemma PartitionMembership(topics: seq<Topic>, t: Topic)
    ensures t in UserTopics(topics) <==> t in topics && t.isUserGenerated
    ensures t in AiTopics(topics) <==> t in topics && !t.isUserGenerated
  {
    var u := UserTopics(topics);
    var a := AiTopics(topics);
    if t in u {
      var i :| 0 <= i < |u| && u[i] == t;
    }
    if t in a {
      var i :| 0 <= i < |a| && a[i] == t;
    }
    if t in topics {
      var i :| 0 <= i < |topics| && topics[i] == t;
    }
  }

  /** The two lists partition the topics: no topic is in both, and no topic is lost. */
  lemma Partition(topics: seq<Topic>)
    ensures |UserTopics(topics)| + |AiTopics(topics)| == |topics|
    ensures forall t :: t in UserTopics(topics) ==> t !in AiTopics(topics)
  {
    Seqs.FilterLength(UserMade, topics);
    Seqs.FilterLength(AiMade, topics);
    Seqs.CountComplement(UserMade, AiMade, topics);
    forall t | t in UserTopics(topics)
      ensures t !in AiTopics(topics)
    {
      PartitionMembership(topics, t);
    }
  }

  /** Both lists keep the order of `topics`. */
  lemma PartitionAppend(topics: seq<Topic>, more: seq<Topic>)
    ensures UserTopics(topics + more) == UserTopics(topics) + UserTopics(more)
    ensures AiTopics(topics + more) == AiTopics(topics) + AiTopics(more)
  {
    Seqs.FilterAppend(UserMade, topics, more);
    Seqs.FilterAppend(AiMade, topics, more);
  }

  /** `isTopicSelected`: some selected topic has the same id. */
  function IsTopicSelected(selected: seq<Topic>, topic: Topic): (r: bool)
    ensures r <==> exists k :: 0 <= k < |selected| && selected[k].id == topic.id
  {
    if selected == [] then false
    else if selected[0].id == topic.id then true
    else
      var r := IsTopicSelected(selected[1..], topic);
      assert r ==> exists k :: 0 <= k < |selected| && selected[k].id == topic.id by {
        if r {
          var k :| 0 <= k < |selected[1..]| && selected[1..][k].id == topic.id;
          assert selected[k + 1].id == topic.id;
        }
      }
      r
  }

  /** Which parts of the panel are shown. */
  datatype Panel =
    | Hidden
    | Shown(userTopics: seq<Topic>, showNoUserTopics: bool, aiTopics: seq<Topic>, showAiSection: bool)

  /** The render: nothing for no topics; the "No user topics yet" note when the user list
      is empty; the AI section only when its list is non-empty. */
  function Render(topics: seq<Topic>): (p: Panel)
  {
    if |topics| == 0 then Hidden
    else
      var user := UserTopics(topics);
      var ai := AiTopics(topics);
      Shown(user, |user| == 0, ai, |ai| > 0)
  }

  /** The render hides the panel exactly for no topics; when shown, at least one of the
      two lists has a button. */
  lemma RenderShape(topics: seq<Topic>)
    ensures Render(topics).Hidden? <==> topics == []
    ensures Render(topics).Shown? ==>
              (Render(topics).showAiSection <==> exists t :: t in topics && !t.isUserGenerated)
              && (Render(topics).showNoUserTopics <==> forall t :: t in topics ==> !t.isUserGenerated)
              && (!Render(topics).showNoUserTopics || Render(topics).showAiSection)
  {
    if topics != [] {
      forall t
        ensures t in UserTopics(topics) <==> t in topics && t.isUserGenerated
        ensures t in AiTopics(topics) <==> t in topics && !t.isUserGenerated
      {
        PartitionMembership(topics, t);
      }
      assert topics[0] in topics;
      var user := UserTopics(topics);
      var ai := AiTopics(topics);
      if |user| > 0 {
        assert user[0] in user;
      }
      if |ai| > 0 {
        assert ai[0] in ai;
      }
    }
  }
}
