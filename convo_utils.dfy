/** `conversational_ai/dataset/utils.py`: a conversation rendered as one string. */
module ConvoUtils {
  import opened PyStr
  import opened Chitchat

  /** `convo_as_str`: prefixed turns joined by `turnSuffix`, between `prefix` and `suffix`. */
  function ConvoAsStr(convo: seq<string>, prefix: string, suffix: string,
                      turnPrefixes: seq<string>, turnSuffix: string): (r: string)
    requires |turnPrefixes| > 0
    ensures StartsWith(r, prefix)
    ensures |suffix| <= |r| && r[|r| - |suffix|..] == suffix
    ensures convo == [] ==> r == prefix + suffix
  {
    prefix + Join(turnSuffix, PrependCycle(convo, turnPrefixes)) + suffix
  }

  /** The defaults of `convo_as_str`. */
  const DefaultTurnPrefixes: seq<string> := ["", ""]
  const DefaultTurnSuffix: string := "\n"

  /** With the default arguments the result is `"\n".join(convo)`: empty turn prefixes are harmless. */
  lemma DefaultsAreNewlineJoin(convo: seq<string>)
    ensures ConvoAsStr(convo, "", "", DefaultTurnPrefixes, DefaultTurnSuffix) == Join("\n", convo)
  {
    var rendered := PrependCycle(convo, DefaultTurnPrefixes);
    assert rendered == convo by {
      forall i | 0 <= i < |convo|
        ensures rendered[i] == convo[i]
      {
        assert DefaultTurnPrefixes[i % 2] == "";
      }
    }
  }

  /**
   * When the one-character turn suffix occurs in no rendered turn, the middle
   * of the string splits back into exactly the turns, turn i carrying
   * `turnPrefixes[i % |turnPrefixes|]`: the suffix occurs |convo| - 1 times.
   */
  lemma TurnsAreRecoverable(convo: seq<string>, prefix: string, suffix: string,
                             turnPrefixes: seq<string>, turnSuffix: string)
    requires |turnPrefixes| > 0 && |turnSuffix| == 1 && |convo| >= 1
    requires forall i :: 0 <= i < |convo| ==> !Contains(turnPrefixes[i % |turnPrefixes|] + convo[i], turnSuffix)
    ensures var r := ConvoAsStr(convo, prefix, suffix, turnPrefixes, turnSuffix);
            var turns := Split(r[|prefix|..|r| - |suffix|], turnSuffix);
            |turns| == |convo| &&
            forall i :: 0 <= i < |convo| ==> turns[i] == turnPrefixes[i % |turnPrefixes|] + convo[i]
  {
    var rendered := PrependCycle(convo, turnPrefixes);
    var r := ConvoAsStr(convo, prefix, suffix, turnPrefixes, turnSuffix);
    assert r[|prefix|..|r| - |suffix|] == Join(turnSuffix, rendered);
    SplitJoin(rendered, turnSuffix);
  }
}
