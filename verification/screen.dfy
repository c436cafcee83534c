/** The state `MyScreenContent` remembers (the name list and the counter), the
    default seed data of the screen and of `ListViewModel`, and the two kinds of
    click that change that state. */
module Screen {
  import opened KotlinInt
  import opened Decimal
  import opened Names
  import Greeting
  import Counter
  import Wrappers

  /** Both defaults hold this many rows. */
  const DefaultSize: nat := 1000

  /** `"Hello Android #$it"`. */
  function DefaultLabel(i: int): (t: string)
    ensures |t| == 15 + |IntToDecimal(i)|
    ensures t[..15] == "Hello Android #" && t[15..] == IntToDecimal(i)
  {
    "Hello Android #" + IntToDecimal(i)
  }

  /** Distinct indices get distinct default labels. */
  lemma DefaultLabelInjective(i: int, j: int)
    ensures DefaultLabel(i) == DefaultLabel(j) ==> i == j
  {
    if DefaultLabel(i) == DefaultLabel(j) {
      assert DefaultLabel(i)[15..] == DefaultLabel(j)[15..];
      IntToDecimalInjective(i, j);
    }
  }

  /** `ListViewModel`'s default argument, `List(n) { "Hello Android #$it" }`. */
  function DefaultLabels(n: nat): (labels: seq<string>)
    ensures |labels| == n
    ensures forall i :: 0 <= i < n ==> labels[i] == DefaultLabel(i)
    ensures forall i, j :: 0 <= i < j < n ==> labels[i] != labels[j]
  {
    var labels := seq(n, i => DefaultLabel(i));
    assert forall i, j :: 0 <= i < j < n ==> labels[i] != labels[j] by {
      forall i, j | 0 <= i < j < n
        ensures labels[i] != labels[j]
      {
        DefaultLabelInjective(i, j);
      }
    }
    labels
  }

  /** `MyScreenContent`'s default argument, `List(n) { NameState(it, "Hello Android #$it") }`. */
  function DefaultNames(n: nat): (s: seq<NameState>)
    ensures |s| == n
    ensures IdsArePositions(s) && NoneSelected(s)
    ensures forall i :: 0 <= i < n ==> s[i].value == DefaultLabel(i)
  {
    seq(n, i => NameState(i, DefaultLabel(i), false))
  }

  /** The screen's default list is the list the view model builds from its default labels. */
  lemma DefaultsAgree(n: nat)
    ensures DefaultNames(n) == FromLabels(DefaultLabels(n))
  {
  }

  /** The screen as first composed with its default argument: a thousand unselected
      rows with ids at their positions, the same list the view model would build
      by default, and a count of 0. */
  lemma DefaultScreen()
    ensures |Start(DefaultNames(DefaultSize)).names| == 1000
    ensures Start(DefaultNames(DefaultSize)).names == FromLabels(DefaultLabels(DefaultSize))
    ensures IdsArePositions(Start(DefaultNames(DefaultSize)).names)
    ensures Start(DefaultNames(DefaultSize)).count == 0
  {
    DefaultsAgree(DefaultSize);
  }

  /** What `MyScreenContent` remembers between recompositions. */
  datatype State = State(names: seq<NameState>, count: int32)

  /** A user gesture: a tap on a row, or on the counter button. */
  datatype Event = RowClicked(name: NameState) | CounterClicked

  /** The first composition: the given names, and a counter at 0. */
  function Start(names: seq<NameState>): State {
    State(names, 0)
  }

  /** One tap: a row tap changes only the names, a counter tap only the count,
      and neither changes the list's length or labels. */
  function Step(st: State, e: Event): (r: State)
    ensures e.RowClicked? ==> r.count == st.count
    ensures e.CounterClicked? ==> r.names == st.names
    ensures |r.names| == |st.names| && Values(r.names) == Values(st.names)
  {
    match e
    case RowClicked(name) => st.(names := ScreenClick(st.names, name))
    case CounterClicked => st.(count := Counter.Click(st.count))
  }

  function Run(st: State, events: seq<Event>): State
    decreases |events|
  {
    if |events| == 0 then st else Run(Step(st, events[0]), events[1..])
  }

  /** The number of counter clicks among the events. */
  function CounterClicks(events: seq<Event>): nat
    decreases |events|
  {
    if |events| == 0 then 0
    else (if events[0].CounterClicked? then 1 else 0) + CounterClicks(events[1..])
  }

  /** The row clicks among the events, in order. */
  function RowClicks(events: seq<Event>): (rs: seq<NameState>)
    ensures |rs| <= |events|
    decreases |events|
  {
    if |events| == 0 then []
    else match events[0]
      case RowClicked(n) => [n] + RowClicks(events[1..])
      case CounterClicked => RowClicks(events[1..])
  }

  /** Applying the row clicks alone to a list. */
  function ScreenClicks(s: seq<NameState>, names: seq<NameState>): seq<NameState>
    decreases |names|
  {
    if |names| == 0 then s else ScreenClicks(ScreenClick(s, names[0]), names[1..])
  }

  /** The row clicks of a run: the names end up as the row clicks alone leave them. */
  lemma {:induction false} RunNames(st: State, events: seq<Event>)
    ensures Run(st, events).names == ScreenClicks(st.names, RowClicks(events))
    decreases |events|
  {
    if |events| > 0 {
      RunNames(Step(st, events[0]), events[1..]);
      if events[0].RowClicked? {
        assert RowClicks(events) == [events[0].name] + RowClicks(events[1..]);
      }
    }
  }

  /** One step touches the count only on a counter click. */
  lemma StepCount(st: State, e: Event)
    ensures Step(st, e).count == if e.CounterClicked? then Counter.Click(st.count) else st.count
  {
  }

  /** The counter clicks of a run: the count ends up as the counter clicks alone leave it. */
  lemma {:induction false} RunCount(st: State, events: seq<Event>)
    ensures Run(st, events).count == Counter.Clicks(st.count, CounterClicks(events))
    decreases |events|
  {
    if |events| > 0 {
      var next, rest := Step(st, events[0]), events[1..];
      assert Run(st, events) == Run(next, rest);
      RunCount(next, rest);
      StepCount(st, events[0]);
      var k := CounterClicks(rest);
      if events[0].CounterClicked? {
        assert CounterClicks(events) == k + 1;
        assert Counter.Clicks(st.count, k + 1) == Counter.Clicks(Counter.Click(st.count), k);
      } else {
        assert CounterClicks(events) == k;
      }
    }
  }

  /** A row click and a counter click give the same state in either order. */
  lemma ClicksCommute(st: State, name: NameState)
    ensures Step(Step(st, RowClicked(name)), CounterClicked) == Step(Step(st, CounterClicked), RowClicked(name))
  {
  }

  /** However the user taps, the list keeps its length and labels, and ids stay at their positions. */
  lemma {:induction false} RunKeepsNames(st: State, events: seq<Event>)
    requires IdsArePositions(st.names)
    ensures |Run(st, events).names| == |st.names|
    ensures Values(Run(st, events).names) == Values(st.names)
    ensures IdsArePositions(Run(st, events).names)
    decreases |events|
  {
    if |events| > 0 {
      RunKeepsNames(Step(st, events[0]), events[1..]);
    }
  }

  /** What the screen shows: the rows, and the button's label and colour. */
  datatype View = View(rows: seq<Greeting.Row>, buttonText: string, buttonEmphasised: bool)

  function Render(st: State): View
  {
    View(Greeting.RenderList(st.names), Counter.Label(st.count), Counter.Emphasised(st.count))
  }

  /** The screen loses no state: two states whose rows carry the same ids are
      rendered identically exactly when they are equal. */
  lemma RenderDeterminesState(a: State, b: State)
    requires |a.names| == |b.names|
    requires forall i :: 0 <= i < |a.names| ==> a.names[i].id == b.names[i].id
    ensures Render(a) == Render(b) <==> a == b
  {
    if Render(a) == Render(b) {
      forall i | 0 <= i < |a.names|
        ensures a.names[i] == b.names[i]
      {
        var ra, rb := Greeting.RenderRow(a.names[i]), Greeting.RenderRow(b.names[i]);
        assert ra == Render(a).rows[i] && rb == Render(b).rows[i];
        Greeting.GreetingTextInjective(a.names[i].value, b.names[i].value);
      }
      assert a.names == b.names;
      Counter.LabelInjective(a.count, b.count);
    }
  }

  /** A counter tap, wrapping at the `Int` limit included, leaves the rows
      rendered from the state as they were and always changes the button's text. */
  lemma RenderAfterCounterClick(st: State)
    ensures Render(Step(st, CounterClicked)).rows == Render(st).rows
    ensures Render(Step(st, CounterClicked)).buttonText != Render(st).buttonText
  {
    Counter.LabelInjective(st.count, Counter.Click(st.count));
  }

  /** The two default rows, built by the view model. */
  lemma TwoDefaultRows()
    ensures FromLabels(DefaultLabels(2)) == [NameState(0, "Hello Android #0", false), NameState(1, "Hello Android #1", false)]
  {
    assert IntToDecimal(0) == "0" && IntToDecimal(1) == "1";
    assert DefaultLabel(0) == "Hello Android #0" && DefaultLabel(1) == "Hello Android #1";
    assert DefaultLabels(2) == ["Hello Android #0", "Hello Android #1"];
  }

  /** Counting the clicks of a tap on a row followed by three taps on the button. */
  lemma {:induction false} OneRowThreeCounterClicks(n: NameState)
    ensures RowClicks([RowClicked(n), CounterClicked, CounterClicked, CounterClicked]) == [n]
    ensures CounterClicks([RowClicked(n), CounterClicked, CounterClicked, CounterClicked]) == 3
  {
    var events := [RowClicked(n), CounterClicked, CounterClicked, CounterClicked];
    var e1 := events[1..];
    var e2 := e1[1..];
    var e3 := e2[1..];
    assert e3 == [CounterClicked] && e3[1..] == [];
    assert RowClicks(e3) == [] && CounterClicks(e3) == 1;
    assert RowClicks(e2) == [] && CounterClicks(e2) == 2;
    assert RowClicks(e1) == [] && CounterClicks(e1) == 3;
  }

  /** Two default rows; tap the first row, then the button three times:
      the first row alone is selected and the counter stands at 3. */
  lemma {:induction false} TwoRowScenario()
    ensures Run(Start(FromLabels(DefaultLabels(2))),
                [RowClicked(NameState(0, "Hello Android #0", false)), CounterClicked, CounterClicked, CounterClicked])
         == State([NameState(0, "Hello Android #0", true), NameState(1, "Hello Android #1", false)], 3)
  {
    TwoDefaultRows();
    var s := FromLabels(DefaultLabels(2));
    var n0 := NameState(0, "Hello Android #0", false);
    var events := [RowClicked(n0), CounterClicked, CounterClicked, CounterClicked];
    RunNames(Start(s), events);
    RunCount(Start(s), events);
    OneRowThreeCounterClicks(n0);
    var clicked := ScreenClick(s, n0);
    assert FindFirst(s, 0) == Wrappers.Some(0);
    assert clicked == [NameState(0, "Hello Android #0", true), NameState(1, "Hello Android #1", false)];
    assert ScreenClicks(s, [n0]) == clicked;
    Counter.ClicksFromZero(3);
  }

  /** How the end state of that scenario is shown: the first greeting
      highlighted, and the button not yet emphasised at 3 clicks. */
  lemma TwoRowScenarioView()
    ensures Render(State([NameState(0, "Hello Android #0", true), NameState(1, "Hello Android #1", false)], 3))
         == View([Greeting.Row("Hello Hello Android #0!", true), Greeting.Row("Hello Hello Android #1!", false)],
                 "I've been clicked 3 times", false)
  {
    TwoRowScenarioRows();
    assert IntToDecimal(3) == "3";
  }

  lemma TwoRowScenarioRows()
    ensures Greeting.RenderList([NameState(0, "Hello Android #0", true), NameState(1, "Hello Android #1", false)])
         == [Greeting.Row("Hello Hello Android #0!", true), Greeting.Row("Hello Hello Android #1!", false)]
  {
    var a, b := NameState(0, "Hello Android #0", true), NameState(1, "Hello Android #1", false);
    RenderTwo(a, b);
    GreetDefault();
  }

  lemma RenderTwo(a: NameState, b: NameState)
    ensures Greeting.RenderList([a, b]) == [Greeting.RenderRow(a), Greeting.RenderRow(b)]
  {
  }

  lemma GreetDefault()
    ensures Greeting.GreetingText("Hello Android #0") == "Hello Hello Android #0!"
    ensures Greeting.GreetingText("Hello Android #1") == "Hello Hello Android #1!"
  {
  }
}
