/**
  The data-source picker: any number of the three connectors, or one example
  document set, never both; Continue reports the choice.
 */
module DataSources {
  import opened JsValue
  import Lists

  /** The connector cards' identifiers, in display order. */
  const SourceIds: seq<string> := ["local", "s3", "google-drive"]

  /** The example cards' identifiers. */
  const ExampleIds: seq<string> := ["doc1", "doc2", "doc3", "doc4"]

  datatype Picker = Picker(selectedSources: seq<string>, selectedExample: Option<string>)

  /** What `onContinue` receives: `{sources, example}`. */
  datatype Choice = Choice(sources: seq<string>, example: Option<string>)

  const Initial: Picker := Picker([], None)

  /** Connectors and an example are never chosen together. */
  predicate Exclusive(p: Picker) {
    !(|p.selectedSources| > 0 && Truthy(p.selectedExample))
  }

  /** `handleSourceSelect(id)`: the connector's membership is toggled and any example is dropped. */
  function SelectSource(p: Picker, id: string): (r: Picker)
    ensures id in r.selectedSources <==> id !in p.selectedSources
    ensures forall y :: y != id ==> (y in r.selectedSources <==> y in p.selectedSources)
    ensures id !in p.selectedSources ==> r.selectedSources == p.selectedSources + [id]
    ensures r.selectedExample == None && Exclusive(r)
  {
    Picker(Lists.Toggle(p.selectedSources, id), None)
  }

  /** `handleExampleSelect(id)`: the example replaces every connector. */
  function SelectExample(p: Picker, id: string): (r: Picker)
    ensures r.selectedExample == Some(id) && r.selectedSources == [] && Exclusive(r)
  {
    Picker([], Some(id))
  }

  predicate ContinueDisabled(p: Picker) {
    |p.selectedSources| == 0 && !Truthy(p.selectedExample)
  }

  /** `handleContinue`: `onContinue` fires, with the current choice, exactly when the button is enabled. */
  function Continue(p: Picker): (reported: Option<Choice>)
    ensures reported.Some? <==> !ContinueDisabled(p)
    ensures reported.Some? ==> reported.value == Choice(p.selectedSources, p.selectedExample)
  {
    if |p.selectedSources| > 0 || Truthy(p.selectedExample) then Some(Choice(p.selectedSources, p.selectedExample))
    else None
  }

  /** A click on one of the cards. */
  datatype Click = SourceCard(i: nat) | ExampleCard(j: nat)

  function Apply(p: Picker, c: Click): Picker {
    match c
    case SourceCard(i) => if i < |SourceIds| then SelectSource(p, SourceIds[i]) else p
    case ExampleCard(j) => if j < |ExampleIds| then SelectExample(p, ExampleIds[j]) else p
  }

  function Run(p: Picker, clicks: seq<Click>): Picker
    decreases |clicks|
  {
    if clicks == [] then p else Run(Apply(p, clicks[0]), clicks[1..])
  }

  /** What every sequence of card clicks keeps: exclusivity, no repeated connector, only offered connectors. */
  predicate WellFormed(p: Picker) {
    && Exclusive(p)
    && Lists.NoDup(p.selectedSources)
    && (forall k :: 0 <= k < |p.selectedSources| ==> p.selectedSources[k] in SourceIds)
  }

  lemma {:induction false} RunWellFormed(p: Picker, clicks: seq<Click>)
    requires WellFormed(p)
    ensures WellFormed(Run(p, clicks))
    decreases |clicks|
  {
    if clicks != [] {
      var q := Apply(p, clicks[0]);
      if clicks[0].SourceCard? && clicks[0].i < |SourceIds| {
        var id := SourceIds[clicks[0].i];
        Lists.ToggleNoDup(p.selectedSources, id);
        forall k | 0 <= k < |q.selectedSources| ensures q.selectedSources[k] in SourceIds {
          var y := q.selectedSources[k];
          assert y in q.selectedSources;
          if y != id {
            assert y in p.selectedSources;
            var m :| 0 <= m < |p.selectedSources| && p.selectedSources[m] == y;
          }
        }
      }
      RunWellFormed(q, clicks[1..]);
    }
  }

  /** From the initial picker, whatever is clicked, the picker stays well formed. */
  lemma ClicksFromInitial(clicks: seq<Click>)
    ensures WellFormed(Run(Initial, clicks))
  {
    RunWellFormed(Initial, clicks);
  }
}
