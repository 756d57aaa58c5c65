/** The submission of src/components/TopicInput.tsx: the comma-separated input
    becomes the list of topic names handed to `onSubmit`, or one of two error
    toasts. */
module TopicInput {
  import opened Wrappers
  import opened Text
  import Seqs

  const EmptyInputError := "Please enter at least one topic"
  const NoValidTopicError := "Please enter at least one valid topic"

  predicate NonEmpty(s: string)
  {
    |s| > 0
  }

  /** `topicInput.split(",").map(t => t.trim()).filter(t => t.length > 0)`. */
  function TopicNames(input: string): seq<string>
  {
    Seqs.Filter(NonEmpty, Seqs.Map(Trim, Split(input, ',')))
  }

  /** `handleSubmit`: the names passed to `onSubmit`, or the message of the toast. */
  function ParseTopicInput(input: string): (r: Result<seq<string>>)
    ensures r.Ok? ==> r.value != []
    ensures r.Ok? ==> |r.value| <= CountChar(input, ',') + 1
    ensures r.Ok? ==> forall k :: 0 <= k < |r.value| ==> r.value[k] != [] && IsTrimmed(r.value[k])
    ensures r.Err? ==> r.error == EmptyInputError || r.error == NoValidTopicError
  {
    if Trim(input) == [] then Err(EmptyInputError)
    else
      var names := TopicNames(input);
      if |names| == 0 then Err(NoValidTopicError)
      else
        assert forall k :: 0 <= k < |names| ==> IsTrimmed(names[k]) by {
          forall k | 0 <= k < |names|
            ensures IsTrimmed(names[k])
          {
            var pieces := Seqs.Map(Trim, Split(input, ','));
            var j :| 0 <= j < |pieces| && pieces[j] == names[k];
          }
        }
        Ok(names)
  }

  /** The first toast is shown exactly for input that is blank. */
  lemma BlankInputRejected(input: string)
    ensures ParseTopicInput(input) == Err(EmptyInputError) <==> AllWhitespace(input)
  {
    TrimEmptyIffWhitespace(input);
  }

  /** Input is refused, by one toast or the other, exactly when it holds nothing but
      commas and whitespace. */
  lemma RejectedIffOnlyCommasAndWhitespace(input: string)
    ensures ParseTopicInput(input).Err?
            <==> forall i :: 0 <= i < |input| ==> input[i] == ',' || IsWhitespace(input[i])
  {
    var pieces := Split(input, ',');
    var trimmed := Seqs.Map(Trim, pieces);
    var names := TopicNames(input);
    if forall i :: 0 <= i < |input| ==> input[i] == ',' || IsWhitespace(input[i]) {
      forall k | 0 <= k < |pieces|
        ensures trimmed[k] == []
      {
        forall j | 0 <= j < |pieces[k]|
          ensures IsWhitespace(pieces[k][j])
        {
          SplitPieceChars(input, ',', k, pieces[k][j]);
        }
        TrimEmptyIffWhitespace(pieces[k]);
      }
      assert forall x :: x in trimmed ==> !NonEmpty(x);
      Seqs.FilterNone(NonEmpty, trimmed);
    } else {
      var i :| 0 <= i < |input| && input[i] != ',' && !IsWhitespace(input[i]);
      var k := SplitCovers(input, ',', input[i]);
      var j :| 0 <= j < |pieces[k]| && pieces[k][j] == input[i];
      TrimEmptyIffWhitespace(pieces[k]);
      assert NonEmpty(trimmed[k]);
      assert trimmed[k] in names;
      TrimEmptyIffWhitespace(input);
    }
  }

  /** Names keep the order of the input: a comma splits the list into the names on its
      left followed by the names on its right. */
  lemma TopicNamesAppend(left: string, right: string)
    ensures TopicNames(left + [','] + right) == TopicNames(left) + TopicNames(right)
  {
    SplitAppend(left, right, ',');
    Seqs.MapAppend(Trim, Split(left, ','), Split(right, ','));
    Seqs.FilterAppend(NonEmpty, Seqs.Map(Trim, Split(left, ',')), Seqs.Map(Trim, Split(right, ',')));
  }

  /** Input without a comma is one topic, trimmed. */
  lemma SingleTopic(input: string)
    requires ',' !in input && !AllWhitespace(input)
    ensures ParseTopicInput(input) == Ok([Trim(input)])
  {
    SplitNoSeparator(input, ',');
    TrimEmptyIffWhitespace(input);
    assert Seqs.Map(Trim, [input]) == [Trim(input)];
    assert [Trim(input)][1..] == [];
  }
}
