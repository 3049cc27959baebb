/** `dataset.py`: conversations turned into tab-separated training lines, and the train/validation files. */
module PrepDataset {
  import opened PyStr
  import opened PySlice
  import opened Wrappers
  import opened Seqs

  const LinePrefix: string := "conversation: "
  const TurnSep: string := "<TURN>"

  /** Lines 24-26, applied to the whole line: the seven punctuation replacements, in the order they are applied. */
  function Normalize(txt: string): string {
    var t := Replace(Replace(Replace(txt, " ,", ","), " .", "."), " ?", "?");
    Replace(Replace(Replace(Replace(t, " 's", "'s"), "s ' ", "s' "), " ' ", "'"), " ’ ", "'")
  }

  /** Line i before clean-up: the first i utterances as context, a tab, then utterance i. */
  function RawLine(c: seq<string>, i: nat): string
    requires 1 <= i < |c|
  {
    LinePrefix + Join(TurnSep, c[..i]) + "\t" + c[i]
  }

  /** A pattern with a space in it does not occur in text without spaces, so replacing it is the identity. */
  lemma ReplaceSpacedAbsent(txt: string, pat: string, repl: string)
    requires ' ' !in txt && ' ' in pat
    ensures Replace(txt, pat, repl) == txt
  {
    var k :| 0 <= k < |pat| && pat[k] == ' ';
    MissingCharNotContained(txt, pat, k);
    ReplaceAbsent(txt, pat, repl);
  }

  /** Every pattern of the clean-up contains a space: text without spaces is left unchanged. */
  lemma NormalizeWithoutSpaces(txt: string)
    requires ' ' !in txt
    ensures Normalize(txt) == txt
  {
    ReplaceSpacedAbsent(txt, " ,", ",");
    ReplaceSpacedAbsent(txt, " .", ".");
    ReplaceSpacedAbsent(txt, " ?", "?");
    ReplaceSpacedAbsent(txt, " 's", "'s");
    ReplaceSpacedAbsent(txt, "s ' ", "s' ");
    ReplaceSpacedAbsent(txt, " ' ", "'");
    ReplaceSpacedAbsent(txt, " ’ ", "'");
  }

  /** `_prep_convo` */
  method PrepConvo(convo: seq<string>) returns (result: seq<string>)
    ensures result == PrepLines(convo)
  {
    result := [];
    var c := DropBlank(convo);
    ghost var lines := PrepLines(convo);
    var i := 1;
    while i < |c|
      invariant 1 <= i && (i <= |c| || i == 1)
      invariant result == lines[..i - 1]
    {
      var txt := RawLine(c, i);
      txt := Normalize(txt);
      PrepLinesPrefix(convo, i);
      result := result + [txt];
      i := i + 1;
    }
    assert lines == lines[..|lines|];
  }

  /** The first i lines are the first i - 1 and then conversation line i cleaned up. */
  lemma PrepLinesPrefix(convo: seq<string>, i: nat)
    requires 1 <= i < |DropBlank(convo)|
    ensures PrepLines(convo)[..i] == PrepLines(convo)[..i - 1] + [Normalize(RawLine(DropBlank(convo), i))]
  {
  }

  /** Line k is conversation line k + 1 cleaned up; m utterances that are not blank give max(m - 1, 0) lines. */
  lemma PrepLinesShape(convo: seq<string>)
    ensures var c := DropBlank(convo);
            var lines := PrepLines(convo);
            |lines| == (if |c| == 0 then 0 else |c| - 1) &&
            forall k :: 0 <= k < |lines| ==> lines[k] == Normalize(RawLine(c, k + 1))
  {
  }

  /** The lines `PrepConvo` produces, as a function of the conversation. */
  function PrepLines(convo: seq<string>): seq<string> {
    var c := DropBlank(convo);
    var n := if |c| == 0 then 0 else |c| - 1;
    seq(n, k requires 0 <= k < n => Normalize(RawLine(c, k + 1)))
  }

  /** All lines of a list of conversations, conversation after conversation. */
  function AllLines(convos: seq<seq<string>>): seq<string>
    decreases |convos|
  {
    if |convos| == 0 then [] else AllLines(convos[..|convos| - 1]) + PrepLines(convos[|convos| - 1])
  }

  /** The lines of one more conversation come after those of the ones before. */
  lemma AllLinesSnoc(convos: seq<seq<string>>, n: nat)
    requires n < |convos|
    ensures AllLines(convos[..n + 1]) == AllLines(convos[..n]) + PrepLines(convos[n])
  {
    assert convos[..n + 1][..n] == convos[..n];
  }

  /**
   * The split of a daily-dialog line at the end-of-utterance marker, the
   * whitespace on both sides of each marker removed with it.
   */
  function EouSplit(line: string): (r: seq<string>)
    ensures |r| == |Split(line, Eou)|
    ensures forall k :: 0 < k < |r| ==> r[k] == [] || !IsSpace(r[k][0])
    ensures forall k :: 0 <= k < |r| - 1 ==> r[k] == [] || !IsSpace(r[k][|r[k]| - 1])
  {
    TrimPieces(Split(line, Eou))
  }

  /** The pieces of a split, each stripped on the sides where a marker was: all but the first on the left, all but the last on the right. */
  function TrimPieces(ps: seq<string>): (r: seq<string>)
    ensures |r| == |ps|
    ensures forall k :: 0 < k < |r| ==> r[k] == [] || !IsSpace(r[k][0])
    ensures forall k :: 0 <= k < |r| - 1 ==> r[k] == [] || !IsSpace(r[k][|r[k]| - 1])
  {
    seq(|ps|, k requires 0 <= k < |ps| => Trim(ps[k], k > 0, k < |ps| - 1))
  }

  /** A piece of the split, its whitespace stripped on the sides where a marker was. */
  function Trim(p: string, left: bool, right: bool): (r: string)
    ensures left ==> r == [] || !IsSpace(r[0])
    ensures right ==> r == [] || !IsSpace(r[|r| - 1])
  {
    var q := if left then StripLeft(p) else p;
    if right then
      var r := StripRight(q);
      assert r != [] ==> r[0] == q[0];
      r
    else q
  }

  const Eou: string := "__eou__"

  /** A chit-chat conversation's utterances: the texts of each message joined by spaces. */
  function Utterances(messages: seq<seq<string>>): seq<string> {
    seq(|messages|, i requires 0 <= i < |messages| => Join(" ", messages[i]))
  }

  /**
   * The lines before shuffling: those of every daily-dialog line when that
   * file is given, then those of every chit-chat conversation.
   */
  function DatasetLines(dailyDialog: Option<seq<string>>, chitchat: seq<seq<seq<string>>>): seq<string> {
    var daily := if dailyDialog.Some? then AllLines(DailyConvos(dailyDialog.value)) else [];
    daily + AllLines(ChitchatConvos(chitchat))
  }

  function DailyConvos(lines: seq<string>): seq<seq<string>> {
    seq(|lines|, i requires 0 <= i < |lines| => EouSplit(lines[i]))
  }

  function ChitchatConvos(chitchat: seq<seq<seq<string>>>): seq<seq<string>> {
    seq(|chitchat|, i requires 0 <= i < |chitchat| => Utterances(chitchat[i]))
  }

  /** Python's `int(x)` of a float: truncation toward zero. */
  function Truncate(x: real): (r: int)
    ensures x >= 0.0 ==> 0.0 <= r as real <= x < r as real + 1.0
    ensures x < 0.0 ==> r as real - 1.0 < x <= r as real <= 0.0
  {
    if x >= 0.0 then x.Floor else -((-x).Floor)
  }

  /** `int(train_ratio * len(dataset))`: where the shuffled lines are cut. */
  function TrainIndex(trainRatio: real, n: nat): int {
    Truncate(trainRatio * n as real)
  }

  /** `dataset.extend(_prep_convo(c))` for every conversation in turn. */
  method ExtendAll(dataset: seq<string>, convos: seq<seq<string>>) returns (r: seq<string>)
    ensures r == dataset + AllLines(convos)
  {
    r := dataset;
    for n := 0 to |convos|
      invariant r == dataset + AllLines(convos[..n])
    {
      var lines := PrepConvo(convos[n]);
      AllLinesSnoc(convos, n);
      AppendAssoc(dataset, AllLines(convos[..n]), lines);
      r := r + lines;
    }
    assert convos[..|convos|] == convos;
  }

  /**
   * `write_to_files`: the lines of every conversation are collected, shuffled
   * and cut at `int(train_ratio * len(dataset))`; the two halves are the
   * texts of the train and the validation file. `dailyDialog` holds the lines
   * of the daily-dialog file, `None` when no path is given.
   */
  method WriteToFiles(dailyDialog: Option<seq<string>>, chitchat: seq<seq<seq<string>>>,
                      shuffle: seq<string> -> seq<string>, trainRatio: real)
    returns (trainText: string, validationText: string)
    ensures var ds := shuffle(DatasetLines(dailyDialog, chitchat));
            var idx := TrainIndex(trainRatio, |ds|);
            trainText == Join("\n", Upto(ds, idx)) && validationText == Join("\n", From(ds, idx))
  {
    var dataset: seq<string> := [];
    if dailyDialog.Some? {
      dataset := ExtendAll(dataset, DailyConvos(dailyDialog.value));
    }
    dataset := ExtendAll(dataset, ChitchatConvos(chitchat));
    assert dataset == DatasetLines(dailyDialog, chitchat);
    dataset := shuffle(dataset);
    var idx := TrainIndex(trainRatio, |dataset|);
    trainText := Join("\n", Upto(dataset, idx));
    validationText := Join("\n", From(dataset, idx));
  }

  /** Whatever the cut, the train lines followed by the validation lines are the shuffled dataset. */
  lemma SplitCoversDataset(ds: seq<string>, idx: int)
    ensures Upto(ds, idx) + From(ds, idx) == ds
    ensures multiset(Upto(ds, idx)) + multiset(From(ds, idx)) == multiset(ds)
  {
    assert Upto(ds, idx) + From(ds, idx) == ds;
  }

  /** A ratio between 0 and 1 puts the first `int(ratio * n)` lines, and no more, in the train file. */
  lemma TrainShare(ds: seq<string>, trainRatio: real)
    requires 0.0 <= trainRatio <= 1.0
    ensures var idx := TrainIndex(trainRatio, |ds|);
            0 <= idx <= |ds| && Upto(ds, idx) == ds[..idx] && From(ds, idx) == ds[idx..]
  {
    var n := |ds| as real;
    assert trainRatio * n <= 1.0 * n;
    assert 0.0 <= trainRatio * n;
  }
}
