// pkg/phobert_onnx/phobert_onnx.py: predict_batch against predict.
module PhobertBatch {
  import opened Basics
  import opened Texts

  datatype Sentiment = Negative | Positive | Neutral

  datatype Probabilities = Probabilities(negative: real, positive: real, neutral: real)

  datatype Output = Output(rating: int, sentiment: Sentiment, confidence: real, probabilities: Option<Probabilities>)

  // Foreign code: segmentation, tokenizer with model (a batch of texts to one row of logits
  // each), and the row-wise softmax.
  datatype Model = Model(segment: string -> string, run: seq<string> -> seq<seq<real>>, softmax: seq<real> -> seq<real>)
  {
    // Three classes per row, and a row that does not depend on its batch: padding and
    // neighbours are inert.
    ghost predicate RowWise() {
      && (forall xs :: |run(xs)| == |xs|)
      && (forall xs, i :: 0 <= i < |xs| ==> run(xs)[i] == run([xs[i]])[0])
      && (forall row :: |softmax(row)| == 3)
    }
  }

  predicate Blank(text: string) {
    forall c :: c in text ==> IsSpace(c)
  }

  function DefaultOutput(withProbabilities: bool): Output {
    Output(2, Neutral, 1.0, if withProbabilities then Some(Probabilities(0.0, 0.0, 1.0)) else None)
  }

  // The first index of the greatest of three values.
  function ArgMax(p: seq<real>): (i: nat)
    requires |p| == 3
    ensures i < 3 && forall j :: 0 <= j < 3 ==> p[j] <= p[i]
    ensures forall j :: 0 <= j < i ==> p[j] < p[i]
  {
    if p[0] >= p[1] && p[0] >= p[2] then 0 else if p[1] >= p[2] then 1 else 2
  }

  function SentimentAt(i: nat): Sentiment {
    if i == 0 then Negative else if i == 1 then Positive else Neutral
  }

  // _postprocess, on the probabilities of one row.
  function Postprocess(p: seq<real>, withProbabilities: bool): Output
    requires |p| == 3
  {
    var i := ArgMax(p);
    Output(i, SentimentAt(i), p[i], if withProbabilities then Some(Probabilities(p[0], p[1], p[2])) else None)
  }

  function Predict(m: Model, text: string, withProbabilities: bool): Output
    requires |m.run([m.segment(text)])| == 1
    requires forall row :: |m.softmax(row)| == 3
  {
    if Blank(text) then DefaultOutput(withProbabilities)
    else Postprocess(m.softmax(m.run([m.segment(text)])[0]), withProbabilities)
  }

  // A blank text is neutral with certainty.  For any other one the greatest of the three
  // probabilities decides, the earliest class winning a tie.
  lemma PredictSays(m: Model, text: string, withProbabilities: bool)
    requires m.RowWise()
    ensures var out := Predict(m, text, withProbabilities);
      && (out.probabilities.Some? <==> withProbabilities)
      && (Blank(text) ==> out.rating == 2 && out.sentiment == Neutral && out.confidence == 1.0)
      && (Blank(text) && withProbabilities ==> out.probabilities == Some(Probabilities(0.0, 0.0, 1.0)))
      && (!Blank(text) ==> Decides(m.softmax(m.run([m.segment(text)])[0]), out))
  {
  }

  ghost predicate Decides(p: seq<real>, out: Output) {
    && |p| == 3 && p[0] <= out.confidence && p[1] <= out.confidence && p[2] <= out.confidence
    && (out.sentiment == Negative <==> p[0] >= p[1] && p[0] >= p[2])
    && (out.sentiment == Positive <==> p[1] > p[0] && p[1] >= p[2])
    && (out.sentiment == Neutral <==> p[2] > p[0] && p[2] > p[1])
    && (match out.sentiment
        case Negative => out.rating == 0 && out.confidence == p[0]
        case Positive => out.rating == 1 && out.confidence == p[1]
        case Neutral => out.rating == 2 && out.confidence == p[2])
    && (out.probabilities.Some? ==>
          out.probabilities.value.negative == p[0] && out.probabilities.value.positive == p[1] && out.probabilities.value.neutral == p[2])
  }

  // ----- Gathering -----------------------------------------------------------------------

  // Each distinct non-blank text has one slot of `unique`, holding its segmentation.
  ghost predicate Slotted(m: Model, done: seq<string>, position: map<string, nat>, unique: seq<string>) {
    && (forall t {:trigger t in position} {:trigger t in done} :: t in position <==> t in done && !Blank(t))
    && (forall t :: t in position ==> position[t] < |unique| && unique[position[t]] == m.segment(t))
    && |unique| == |position|
  }

  // Every position of a non-blank text is listed under it, and nothing else is.
  ghost predicate Indexed(done: seq<string>, indices: map<string, seq<nat>>) {
    && (forall t {:trigger t in indices} {:trigger t in done} :: t in indices <==> t in done && !Blank(t))
    && (forall i :: 0 <= i < |done| && !Blank(done[i]) ==> i in indices[done[i]])
    && (forall t :: t in indices ==> ListsOnly(done, t, indices[t]))
  }

  ghost predicate ListsOnly(done: seq<string>, t: string, where: seq<nat>) {
    forall j :: 0 <= j < |where| ==> where[j] < |done| && done[where[j]] == t
  }

  lemma NothingGathered(m: Model)
    ensures Slotted(m, [], map[], []) && Indexed([], map[])
  {
  }

  lemma SlotNew(m: Model, done: seq<string>, position: map<string, nat>, unique: seq<string>, t: string)
    requires Slotted(m, done, position, unique) && !Blank(t) && t !in position
    ensures Slotted(m, done + [t], position[t := |unique|], unique + [m.segment(t)])
  {
    assert position[t := |unique|].Keys == position.Keys + {t};
  }

  lemma IndexOne(done: seq<string>, indices: map<string, seq<nat>>, t: string)
    requires Indexed(done, indices) && !Blank(t)
    ensures Indexed(done + [t], indices[t := (if t in indices then indices[t] else []) + [|done|]])
  {
    var more := indices[t := (if t in indices then indices[t] else []) + [|done|]];
    forall u | u in more
      ensures ListsOnly(done + [t], u, more[u])
    {
      assert u in indices ==> ListsOnly(done, u, indices[u]);
      ListsOneMore(done, t, u, if u in indices then indices[u] else []);
    }
    forall i | 0 <= i < |done + [t]| && !Blank((done + [t])[i])
      ensures (done + [t])[i] in more && i in more[(done + [t])[i]]
    {
      assert i < |done| ==> i in indices[done[i]];
    }
  }

  lemma ListsOneMore(done: seq<string>, t: string, u: string, where: seq<nat>)
    requires ListsOnly(done, u, where)
    ensures ListsOnly(done + [t], u, where)
    ensures u == t ==> ListsOnly(done + [t], u, where + [|done|])
  {
  }

  // ----- The batch -----------------------------------------------------------------------------

  // Every slot is filled, with what the single prediction gives; each distinct non-blank
  // text goes through the model once, in a single call.
  method PredictBatch(m: Model, texts: seq<string>, withProbabilities: bool) returns (results: seq<Output>, rows: nat)
    requires m.RowWise()
    ensures |results| == |texts|
    ensures forall i :: 0 <= i < |texts| ==> results[i] == Predict(m, texts[i], withProbabilities)
    ensures rows == |DistinctTexts(texts)|
  {
    if texts == [] {
      assert DistinctTexts(texts) == {};
      return [], 0;
    }
    var slots := new Option<Output>[|texts|](i => None);
    rows := FillSlots(m, texts, withProbabilities, slots);
    results := seq(|texts|, i requires 0 <= i < slots.Length && slots[i].Some? reads slots => slots[i].value);
  }

  ghost function DistinctTexts(texts: seq<string>): set<string> {
    set t | t in texts && !Blank(t)
  }

  method FillSlots(
    m: Model, texts: seq<string>, withProbabilities: bool, slots: array<Option<Output>>) returns (rows: nat)
    requires m.RowWise() && slots.Length == |texts|
    modifies slots
    ensures forall i :: 0 <= i < |texts| ==> slots[i] == Some(Predict(m, texts[i], withProbabilities))
    ensures rows == |DistinctTexts(texts)|
  {
    var position, unique, indices := Gather(m, texts, withProbabilities, slots);
    rows := |unique|;
    assert position.Keys == DistinctTexts(texts);
    if unique != [] {
      var outputs := RunUnique(m, unique, withProbabilities);
      Scatter(texts, withProbabilities, position, indices, outputs, slots);
      EachFilled(m, texts, withProbabilities, position, unique, outputs, slots[..]);
    } else {
      AllBlank(m, texts, withProbabilities, position, slots[..]);
    }
  }

  lemma EachFilled(
    m: Model, texts: seq<string>, withProbabilities: bool, position: map<string, nat>, unique: seq<string>,
    outputs: seq<Output>, slots: seq<Option<Output>>)
    requires m.RowWise() && |slots| == |texts| && Slotted(m, texts, position, unique) && |outputs| == |unique|
    requires forall k :: 0 <= k < |unique| ==> outputs[k] == Postprocess(m.softmax(m.run([unique[k]])[0]), withProbabilities)
    requires BlanksFilled(texts, withProbabilities, |texts|, slots)
    requires forall i :: 0 <= i < |texts| && !Blank(texts[i]) ==>
      texts[i] in position && position[texts[i]] < |outputs| && slots[i] == Some(outputs[position[texts[i]]])
    ensures forall i :: 0 <= i < |texts| ==> slots[i] == Some(Predict(m, texts[i], withProbabilities))
  {
  }

  lemma AllBlank(
    m: Model, texts: seq<string>, withProbabilities: bool, position: map<string, nat>, slots: seq<Option<Output>>)
    requires m.RowWise() && |slots| == |texts| && Slotted(m, texts, position, [])
    requires BlanksFilled(texts, withProbabilities, |texts|, slots)
    ensures forall i :: 0 <= i < |texts| ==> slots[i] == Some(Predict(m, texts[i], withProbabilities))
  {
    assert position.Keys == {};
    forall i | 0 <= i < |texts|
      ensures Blank(texts[i])
    {
      assert texts[i] in texts;
    }
  }

  ghost predicate BlanksFilled(texts: seq<string>, withProbabilities: bool, upTo: nat, slots: seq<Option<Output>>) {
    forall i :: 0 <= i < upTo && i < |texts| && i < |slots| && Blank(texts[i]) ==> slots[i] == Some(DefaultOutput(withProbabilities))
  }

  method Gather(m: Model, texts: seq<string>, withProbabilities: bool, slots: array<Option<Output>>)
    returns (position: map<string, nat>, unique: seq<string>, indices: map<string, seq<nat>>)
    requires slots.Length == |texts|
    modifies slots
    ensures Slotted(m, texts, position, unique) && Indexed(texts, indices)
    ensures BlanksFilled(texts, withProbabilities, |texts|, slots[..])
  {
    position, unique, indices := map[], [], map[];
    NothingGathered(m);
    assert texts[..0] == [];
    for i := 0 to |texts|
      invariant Slotted(m, texts[..i], position, unique) && Indexed(texts[..i], indices)
      invariant BlanksFilled(texts, withProbabilities, i, slots[..])
    {
      FillSlot(texts, withProbabilities, i, slots);
      assert texts[..i + 1] == texts[..i] + [texts[i]];
      position, unique, indices := NoteText(m, texts[..i], position, unique, indices, texts[i], i);
    }
    assert texts[..|texts|] == texts;
  }

  // The branch for a blank text, which gets the default at once.
  method FillSlot(texts: seq<string>, withProbabilities: bool, i: nat, slots: array<Option<Output>>)
    requires i < |texts| == slots.Length && BlanksFilled(texts, withProbabilities, i, slots[..])
    modifies slots
    ensures BlanksFilled(texts, withProbabilities, i + 1, slots[..])
  {
    if Blank(texts[i]) {
      FillBlank(texts, withProbabilities, i, slots[..]);
      ghost var filled := slots[..][i := Some(DefaultOutput(withProbabilities))];
      slots[i] := Some(DefaultOutput(withProbabilities));
      assert slots[..] == filled;
    }
  }

  lemma FillBlank(texts: seq<string>, withProbabilities: bool, i: nat, slots: seq<Option<Output>>)
    requires i < |texts| == |slots| && BlanksFilled(texts, withProbabilities, i, slots)
    ensures BlanksFilled(texts, withProbabilities, i + 1, slots[i := Some(DefaultOutput(withProbabilities))])
  {
  }

  lemma SkipBlank(
    m: Model, done: seq<string>, position: map<string, nat>, unique: seq<string>, indices: map<string, seq<nat>>, t: string)
    requires Slotted(m, done, position, unique) && Indexed(done, indices) && Blank(t)
    ensures Slotted(m, done + [t], position, unique) && Indexed(done + [t], indices)
  {
    forall u | u in indices
      ensures ListsOnly(done + [t], u, indices[u])
    {
      assert ListsOnly(done, u, indices[u]);
    }
  }

  // The branch for a non-blank text: its position is listed, and its first appearance
  // takes a slot.
  method NoteText(
    m: Model, ghost done: seq<string>, position: map<string, nat>, unique: seq<string>, indices: map<string, seq<nat>>,
    t: string, i: nat)
    returns (position': map<string, nat>, unique': seq<string>, indices': map<string, seq<nat>>)
    requires Slotted(m, done, position, unique) && Indexed(done, indices) && i == |done|
    ensures Slotted(m, done + [t], position', unique') && Indexed(done + [t], indices')
  {
    position', unique', indices' := position, unique, indices;
    if Blank(t) {
      SkipBlank(m, done, position, unique, indices, t);
      return;
    }
    IndexOne(done, indices, t);
    indices' := indices[t := (if t in indices then indices[t] else []) + [i]];
    if t !in position {
      SlotNew(m, done, position, unique, t);
      position' := position[t := |unique|];
      unique' := unique + [m.segment(t)];
    }
  }

  // One forward pass, then row by row; the loop repeats the steps of Postprocess.
  method RunUnique(m: Model, unique: seq<string>, withProbabilities: bool) returns (outputs: seq<Output>)
    requires m.RowWise()
    ensures |outputs| == |unique|
    ensures forall k :: 0 <= k < |unique| ==> outputs[k] == Postprocess(m.softmax(m.run([unique[k]])[0]), withProbabilities)
  {
    var logits := m.run(unique);
    outputs := [];
    for k := 0 to |unique|
      invariant |outputs| == k
      invariant forall j :: 0 <= j < k ==> outputs[j] == Postprocess(m.softmax(m.run([unique[j]])[0]), withProbabilities)
    {
      var p := m.softmax(logits[k]);
      var i := ArgMax(p);
      var probabilities := None;
      if withProbabilities {
        probabilities := Some(Probabilities(p[0], p[1], p[2]));
      }
      assert logits[k] == m.run([unique[k]])[0];
      outputs := outputs + [Output(i, SentimentAt(i), p[i], probabilities)];
    }
  }

  // The loop over the dict's items, in any order.
  method Scatter(
    texts: seq<string>, withProbabilities: bool, position: map<string, nat>,
    indices: map<string, seq<nat>>, outputs: seq<Output>, slots: array<Option<Output>>)
    requires slots.Length == |texts| && Indexed(texts, indices)
    requires position.Keys == indices.Keys && forall t :: t in position ==> position[t] < |outputs|
    requires BlanksFilled(texts, withProbabilities, |texts|, slots[..])
    modifies slots
    ensures BlanksFilled(texts, withProbabilities, |texts|, slots[..])
    ensures forall i :: 0 <= i < |texts| && !Blank(texts[i]) ==>
      texts[i] in position && position[texts[i]] < |outputs| && slots[i] == Some(outputs[position[texts[i]]])
  {
    var rest := indices.Keys;
    while rest != {}
      invariant rest <= indices.Keys
      invariant BlanksFilled(texts, withProbabilities, |texts|, slots[..])
      invariant forall i :: 0 <= i < |texts| && texts[i] in position && texts[i] !in rest ==>
        slots[i] == Some(outputs[position[texts[i]]])
      decreases rest
    {
      var t :| t in rest;
      rest := rest - {t};
      assert ListsOnly(texts, t, indices[t]) && !Blank(t);
      ScatterOne(texts, t, indices[t], outputs[position[t]], slots);
    }
  }

  method ScatterOne(texts: seq<string>, t: string, where: seq<nat>, output: Output, slots: array<Option<Output>>)
    requires slots.Length == |texts| && ListsOnly(texts, t, where)
    requires forall i :: 0 <= i < |texts| && texts[i] == t ==> i in where
    modifies slots
    ensures forall i :: 0 <= i < |texts| ==> slots[i] == if texts[i] == t then Some(output) else old(slots[i])
  {
    for j := 0 to |where|
      invariant forall i :: 0 <= i < |texts| ==> slots[i] == if i in where[..j] then Some(output) else old(slots[i])
    {
      slots[where[j]] := Some(output);
      assert where[..j + 1] == where[..j] + [where[j]];
    }
    assert where[..|where|] == where;
  }
}
