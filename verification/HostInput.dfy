// The desktop host behind its line splitter: chunks of standard input between the other steps.
module HostInput {
  import opened Sequences
  import opened Sorting
  import opened LineSplitter
  import opened DesktopHost

  // A chunk arrives, or the host takes a step that is not an arrival.
  datatype Event = Chunk(text: string) | Turn(step: Step)

  // Everything read.
  function InputOf(events: seq<Event>): string {
    if events == [] then ""
    else
      var last := events[|events| - 1];
      InputOf(events[..|events| - 1]) + if last.Chunk? then last.text else ""
  }

  function Chunks(events: seq<Event>): seq<string> {
    if events == [] then []
    else Chunks(events[..|events| - 1]) + if events[|events| - 1].Chunk? then [events[|events| - 1].text] else []
  }

  // It is the chunks one behind the other.
  lemma {:induction false} InputIsChunks(events: seq<Event>)
    ensures InputOf(events) == Concat(Chunks(events))
  {
    if events != [] {
      var front, last := events[..|events| - 1], events[|events| - 1];
      InputIsChunks(front);
      if last.Chunk? {
        ConcatAppend(Chunks(front), [last.text]);
        assert [last.text][1..] == [] && last.text + "" == last.text;
      } else {
        assert InputOf(front) + "" == InputOf(front) && Chunks(front) + [] == Chunks(front);
      }
    }
  }

  function Arrived(lines: seq<string>, parse: string -> Line): seq<Step> {
    Map((line: string) => Arrive(parse(line)), lines)
  }

  // The host's steps: a chunk is split behind what earlier chunks left.
  function StepsOf(events: seq<Event>, parse: string -> Line): seq<Step> {
    if events == [] then []
    else
      var front, last := events[..|events| - 1], events[|events| - 1];
      StepsOf(front, parse) +
        match last
        case Chunk(text) => Arrived(Lines(Rest(InputOf(front)) + text), parse)
        case Turn(step) => if step.Arrive? then [] else [step]
  }

  lemma {:induction false} ArrivalsAppend(a: seq<Step>, b: seq<Step>)
    ensures Arrivals(a + b) == Arrivals(a) + Arrivals(b)
  {
    if b == [] {
      assert a + b == a;
    } else {
      assert (a + b)[..|a + b| - 1] == a + b[..|b| - 1];
      ArrivalsAppend(a, b[..|b| - 1]);
    }
  }

  lemma {:induction false} ArrivedLines(lines: seq<string>, parse: string -> Line)
    ensures Arrivals(Arrived(lines, parse)) == Map(parse, lines)
  {
    if lines != [] {
      var front := lines[..|lines| - 1];
      ArrivedLines(front, parse);
      assert Arrived(lines, parse)[..|lines| - 1] == Arrived(front, parse);
      assert Map(parse, lines) == Map(parse, front) + [parse(lines[|lines| - 1])];
    }
  }

  lemma MapAppend<A, B>(f: A -> B, a: seq<A>, b: seq<A>)
    ensures Map(f, a + b) == Map(f, a) + Map(f, b)
  {
  }

  lemma ChunkArrivals(before: seq<Step>, whole: string, text: string, parse: string -> Line)
    requires Arrivals(before) == Map(parse, Lines(whole))
    ensures Arrivals(before + Arrived(Lines(Rest(whole) + text), parse)) == Map(parse, Lines(whole + text))
  {
    var lines := Lines(Rest(whole) + text);
    SplitAnywhere(whole, text);
    ArrivalsAppend(before, Arrived(lines, parse));
    ArrivedLines(lines, parse);
    MapAppend(parse, Lines(whole), lines);
  }

  // What arrives are the lines of everything read.
  lemma {:induction false} ArrivalsOfInput(events: seq<Event>, parse: string -> Line)
    ensures Arrivals(StepsOf(events, parse)) == Map(parse, Lines(InputOf(events)))
  {
    if events != [] {
      var front, last := events[..|events| - 1], events[|events| - 1];
      ArrivalsOfInput(front, parse);
      match last
      case Chunk(text) =>
        ChunkArrivals(StepsOf(front, parse), InputOf(front), text, parse);
      case Turn(step) =>
        assert InputOf(events) == InputOf(front);
        ArrivalsAppend(StepsOf(front, parse), if step.Arrive? then [] else [step]);
    }
  }

  // ---------------------------------------------------------------- the answers

  ghost predicate WorkedOff(h: Host) {
    forall i :: 0 <= i < |h.chain| ==> h.chain[i].phase.Done?
  }

  lemma {:induction false} AnsweredAt(answers: seq<Answer>, i: nat)
    requires i < |answers|
    ensures Answered(answers, answers[i].line) >= 1
    ensures forall j :: 0 <= j < |answers| && j != i && answers[j].line == answers[i].line ==> Answered(answers, answers[i].line) >= 2
  {
    var front := answers[..|answers| - 1];
    if i < |front| {
      AnsweredAt(front, i);
    } else {
      forall j | 0 <= j < |front| && answers[j].line == answers[i].line
        ensures Answered(answers, answers[i].line) >= 2
      {
        AnsweredAt(front, j);
      }
    }
  }

  lemma {:induction false} AnsweredSomewhere(answers: seq<Answer>, n: nat) returns (i: nat)
    requires Answered(answers, n) >= 1
    ensures i < |answers| && answers[i].line == n
  {
    var last := |answers| - 1;
    if answers[last].line == n {
      i := last;
    } else {
      i := AnsweredSomewhere(answers[..last], n);
    }
  }

  lemma AnswersDistinct(steps: seq<Step>)
    ensures Distinct(Execute(steps).answers)
  {
    EveryRun(steps);
    var answers := Execute(steps).answers;
    forall i, j | 0 <= i < j < |answers|
      ensures answers[i] != answers[j]
    {
      EachLineAnsweredOnce(steps, answers[i].line);
      AnsweredAt(answers, i);
    }
  }

  lemma SameAnswer(a: seq<Step>, b: seq<Step>, p: nat)
    requires Arrivals(a) == Arrivals(b) && WorkedOff(Execute(b)) && p < |Execute(a).answers|
    ensures Execute(a).answers[p] in Execute(b).answers
  {
    EveryRun(a);
    EveryRun(b);
    var answer := Execute(a).answers[p];
    EachLineAnsweredOnce(b, answer.line);
    var q := AnsweredSomewhere(Execute(b).answers, answer.line);
    assert Execute(b).answers[q] == answer;
  }

  // However the same input is cut into chunks, and whatever the host did in between, the same lines arrive; and
  // once the queue is worked off, the same answers have been sent.
  lemma CutsDoNotMatter(a: seq<Event>, b: seq<Event>, parse: string -> Line)
    requires InputOf(a) == InputOf(b)
    ensures var h, k := Execute(StepsOf(a, parse)), Execute(StepsOf(b, parse));
            && h.lines == k.lines == Map(parse, Lines(InputOf(a)))
            && (WorkedOff(h) && WorkedOff(k) ==> multiset(h.answers) == multiset(k.answers))
  {
    var sa, sb := StepsOf(a, parse), StepsOf(b, parse);
    ArrivalsOfInput(a, parse);
    ArrivalsOfInput(b, parse);
    LinesAreArrivals(sa);
    LinesAreArrivals(sb);
    if WorkedOff(Execute(sa)) && WorkedOff(Execute(sb)) {
      SameElements(sa, sb);
      AnswersDistinct(sa);
      AnswersDistinct(sb);
      DistinctSameElements(Execute(sa).answers, Execute(sb).answers);
    }
  }

  lemma SameElements(a: seq<Step>, b: seq<Step>)
    requires Arrivals(a) == Arrivals(b) && WorkedOff(Execute(a)) && WorkedOff(Execute(b))
    ensures Elements(Execute(a).answers) == Elements(Execute(b).answers)
  {
    forall p | 0 <= p < |Execute(a).answers|
      ensures Execute(a).answers[p] in Execute(b).answers
    {
      SameAnswer(a, b, p);
    }
    forall p | 0 <= p < |Execute(b).answers|
      ensures Execute(b).answers[p] in Execute(a).answers
    {
      SameAnswer(b, a, p);
    }
  }
}
