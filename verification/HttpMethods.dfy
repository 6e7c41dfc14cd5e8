/** The request-method recogniser of the HTTP parser: it reads a word one byte at a time against a
    current guess, and changes the guess in mid-word where two methods part. */
module HttpMethods {
  import opened Wrappers

  datatype Method =
    | Delete | Get | Head | Post | Put | Connect | Options | Trace | Copy | Lock | MkCol | Move
    | PropFind | PropPatch | Search | Unlock | Bind | Rebind | Unbind | Acl | Report | MkActivity
    | Checkout | Merge | MSearch | Notify | Subscribe | Unsubscribe | Patch | Purge | MkCalendar
    | Link | Unlink

  /** The table of method strings. */
  function Name(m: Method): string {
    match m
    case Delete => "DELETE"
    case Get => "GET"
    case Head => "HEAD"
    case Post => "POST"
    case Put => "PUT"
    case Connect => "CONNECT"
    case Options => "OPTIONS"
    case Trace => "TRACE"
    case Copy => "COPY"
    case Lock => "LOCK"
    case MkCol => "MKCOL"
    case Move => "MOVE"
    case PropFind => "PROPFIND"
    case PropPatch => "PROPPATCH"
    case Search => "SEARCH"
    case Unlock => "UNLOCK"
    case Bind => "BIND"
    case Rebind => "REBIND"
    case Unbind => "UNBIND"
    case Acl => "ACL"
    case Report => "REPORT"
    case MkActivity => "MKACTIVITY"
    case Checkout => "CHECKOUT"
    case Merge => "MERGE"
    case MSearch => "M-SEARCH"
    case Notify => "NOTIFY"
    case Subscribe => "SUBSCRIBE"
    case Unsubscribe => "UNSUBSCRIBE"
    case Patch => "PATCH"
    case Purge => "PURGE"
    case MkCalendar => "MKCALENDAR"
    case Link => "LINK"
    case Unlink => "UNLINK"
  }

  function Names(methods: seq<Method>): (names: seq<string>)
    ensures |names| == |methods| && forall i :: 0 <= i < |methods| ==> names[i] == Name(methods[i])
  {
    seq(|methods|, i requires 0 <= i < |methods| => Name(methods[i]))
  }

  /** The strings in the order of their numbers. */
  lemma MethodStrings()
    ensures Names([Delete, Get, Head, Post, Put, Connect, Options, Trace]) ==
            ["DELETE", "GET", "HEAD", "POST", "PUT", "CONNECT", "OPTIONS", "TRACE"]
    ensures Names([Copy, Lock, MkCol, Move, PropFind, PropPatch, Search, Unlock]) ==
            ["COPY", "LOCK", "MKCOL", "MOVE", "PROPFIND", "PROPPATCH", "SEARCH", "UNLOCK"]
    ensures Names([Bind, Rebind, Unbind, Acl, Report, MkActivity, Checkout, Merge]) ==
            ["BIND", "REBIND", "UNBIND", "ACL", "REPORT", "MKACTIVITY", "CHECKOUT", "MERGE"]
    ensures Names([MSearch, Notify, Subscribe, Unsubscribe, Patch]) ==
            ["M-SEARCH", "NOTIFY", "SUBSCRIBE", "UNSUBSCRIBE", "PATCH"]
    ensures Names([Purge, MkCalendar, Link, Unlink]) ==
            ["PURGE", "MKCALENDAR", "LINK", "UNLINK"]
  {
    hide Name;
    FirstStrings();
    SecondStrings();
    ThirdStrings();
    FourthStrings();
    LastStrings();
  }

  lemma FirstStrings()
    ensures Names([Delete, Get, Head, Post, Put, Connect, Options, Trace]) ==
            ["DELETE", "GET", "HEAD", "POST", "PUT", "CONNECT", "OPTIONS", "TRACE"]
  {
  }

  lemma SecondStrings()
    ensures Names([Copy, Lock, MkCol, Move, PropFind, PropPatch, Search, Unlock]) ==
            ["COPY", "LOCK", "MKCOL", "MOVE", "PROPFIND", "PROPPATCH", "SEARCH", "UNLOCK"]
  {
  }

  lemma ThirdStrings()
    ensures Names([Bind, Rebind, Unbind, Acl, Report, MkActivity, Checkout, Merge]) ==
            ["BIND", "REBIND", "UNBIND", "ACL", "REPORT", "MKACTIVITY", "CHECKOUT", "MERGE"]
  {
  }

  lemma FourthStrings()
    ensures Names([MSearch, Notify, Subscribe, Unsubscribe, Patch]) ==
            ["M-SEARCH", "NOTIFY", "SUBSCRIBE", "UNSUBSCRIBE", "PATCH"]
  {
  }

  lemma LastStrings()
    ensures Names([Purge, MkCalendar, Link, Unlink]) ==
            ["PURGE", "MKCALENDAR", "LINK", "UNLINK"]
  {
  }

  // ---------------------------------------------------------------- the recogniser

  /** Where the parser stands: before the word, `index` letters into it, just past its space, in error,
      or anywhere later. */
  datatype State = Start | Reading(guess: Method, index: nat) | Accepted(found: Method) | Failed | Past

  predicate IsAlpha(c: char) {
    'a' <= c <= 'z' || 'A' <= c <= 'Z'
  }

  /** The first guess for each first letter. */
  function FirstGuess(c: char): Option<Method> {
    match c
    case 'A' => Some(Acl)
    case 'B' => Some(Bind)
    case 'C' => Some(Connect)
    case 'D' => Some(Delete)
    case 'G' => Some(Get)
    case 'H' => Some(Head)
    case 'L' => Some(Lock)
    case 'M' => Some(MkCol)
    case 'N' => Some(Notify)
    case 'O' => Some(Options)
    case 'P' => Some(Post)
    case 'R' => Some(Report)
    case 'S' => Some(Subscribe)
    case 'T' => Some(Trace)
    case 'U' => Some(Unlock)
    case _ => None
  }

  /** The guess to change to when the letter at `index` is not the one the guess has there. */
  function Change(guess: Method, index: nat, c: char): Option<Method> {
    match (guess, index, c)
    case (Post, 1, 'U') => Some(Put)
    case (Post, 1, 'A') => Some(Patch)
    case (Connect, 1, 'H') => Some(Checkout)
    case (Connect, 2, 'P') => Some(Copy)
    case (MkCol, 1, 'O') => Some(Move)
    case (MkCol, 1, 'E') => Some(Merge)
    case (MkCol, 2, 'A') => Some(MkActivity)
    case (MkCol, 3, 'A') => Some(MkCalendar)
    case (Subscribe, 1, 'E') => Some(Search)
    case (Report, 2, 'B') => Some(Rebind)
    case (Post, 1, 'R') => Some(PropFind)
    case (PropFind, 4, 'P') => Some(PropPatch)
    case (Put, 2, 'R') => Some(Purge)
    case (Lock, 1, 'I') => Some(Link)
    case (Unlock, 2, 'S') => Some(Unsubscribe)
    case (Unlock, 2, 'B') => Some(Unbind)
    case (Unlock, 3, 'I') => Some(Unlink)
    case _ => None
  }

  function Step(state: State, c: char): State {
    match state
    case Start =>
      if c == '\r' || c == '\n' then Start
      else if !IsAlpha(c) || FirstGuess(c).None? then Failed
      else Reading(FirstGuess(c).value, 1)
    case Reading(guess, index) =>
      var name := Name(guess);
      if c == '\0' then Failed
      else if c == ' ' && index == |name| then Accepted(guess)
      else if index < |name| && c == name[index] then Reading(guess, index + 1)
      else if IsAlpha(c) then
        if Change(guess, index, c).None? then Failed else Reading(Change(guess, index, c).value, index + 1)
      else if c == '-' && index == 1 && guess == MkCol then Reading(MSearch, index + 1)
      else Failed
    case Accepted(_) => Past
    case _ => state
  }

  function Run(state: State, text: string): State {
    if text == "" then state else Step(Run(state, text[..|text| - 1]), text[|text| - 1])
  }

  /** The text without the line ends that may come before a request. */
  function Body(text: string): string {
    if text != "" && (text[0] == '\r' || text[0] == '\n') then Body(text[1..]) else text
  }

  // ---------------------------------------------------------------- how the table hangs together

  /** The guess a method is reached from, after how many letters and on which; none for first guesses. */
  function Parent(m: Method): Option<(Method, nat, char)> {
    match m
    case Put => Some((Post, 1, 'U'))
    case Patch => Some((Post, 1, 'A'))
    case Checkout => Some((Connect, 1, 'H'))
    case Copy => Some((Connect, 2, 'P'))
    case Move => Some((MkCol, 1, 'O'))
    case Merge => Some((MkCol, 1, 'E'))
    case MkActivity => Some((MkCol, 2, 'A'))
    case MkCalendar => Some((MkCol, 3, 'A'))
    case Search => Some((Subscribe, 1, 'E'))
    case Rebind => Some((Report, 2, 'B'))
    case PropFind => Some((Post, 1, 'R'))
    case PropPatch => Some((PropFind, 4, 'P'))
    case Purge => Some((Put, 2, 'R'))
    case Link => Some((Lock, 1, 'I'))
    case Unsubscribe => Some((Unlock, 2, 'S'))
    case Unbind => Some((Unlock, 2, 'B'))
    case Unlink => Some((Unlock, 3, 'I'))
    case MSearch => Some((MkCol, 1, '-'))
    case _ => None
  }

  function Rank(m: Method): nat {
    if m in {Purge, PropPatch} then 2 else if Parent(m).Some? then 1 else 0
  }

  /** The guess while the first `i` letters of method `m` have been read. */
  function Guess(m: Method, i: nat): Method
    decreases Rank(m)
  {
    if Parent(m).Some? && i <= Parent(m).value.1 then Guess(Parent(m).value.0, i) else m
  }

  /** A change of guess leads from the parent of the new guess, on the letter where they part. */
  lemma ChangeIsParent(guess: Method, index: nat, c: char)
    requires Change(guess, index, c).Some?
    ensures Parent(Change(guess, index, c).value) == Some((guess, index, c))
  {
  }

  lemma ParentParts(m: Method)
    requires Parent(m).Some?
    ensures var (p, k, c) := Parent(m).value;
            && 1 <= k < |Name(m)| && k < |Name(p)| && Name(p)[..k] == Name(m)[..k] && Name(p)[k] != Name(m)[k] == c
  {
    if Parent(m).value.1 == 1 {
      PartEarly(m);
    } else if Parent(m).value.1 == 2 {
      PartSecond(m);
    } else {
      PartLate(m);
    }
    hide Name, Parent;
  }

  lemma PartEarly(m: Method)
    requires Parent(m).Some? && Parent(m).value.1 == 1
    ensures var (p, k, c) := Parent(m).value;
            && 1 < |Name(m)| && 1 < |Name(p)| && Name(p)[0] == Name(m)[0] && Name(p)[1] != Name(m)[1] == c
            && Name(p)[..1] == Name(m)[..1]
  {
  }

  lemma PartSecond(m: Method)
    requires Parent(m).Some? && Parent(m).value.1 == 2
    ensures var (p, k, c) := Parent(m).value;
            && 2 < |Name(m)| && 2 < |Name(p)| && Name(p)[2] != Name(m)[2] == c && Name(p)[..2] == Name(m)[..2]
  {
    assert Name(Parent(m).value.0)[0] == Name(m)[0] && Name(Parent(m).value.0)[1] == Name(m)[1];
  }

  lemma PartLate(m: Method)
    requires Parent(m).Some? && Parent(m).value.1 > 2
    ensures var (p, k, c) := Parent(m).value;
            && 1 <= k < |Name(m)| && k < |Name(p)| && Name(p)[..k] == Name(m)[..k] && Name(p)[k] != Name(m)[k] == c
  {
    assert m in {MkCalendar, Unlink, PropPatch};
    var p := Parent(m).value.0;
    assert Name(p)[0] == Name(m)[0] && Name(p)[1] == Name(m)[1] && Name(p)[2] == Name(m)[2];
    assert m == PropPatch ==> Name(p)[3] == Name(m)[3];
  }

  lemma ParentChanges(m: Method)
    requires Parent(m).Some?
    ensures var (p, k, c) := Parent(m).value;
            && c != '\0' && Guess(p, k) == p && Rank(p) < Rank(m)
            && (if m == MSearch then p == MkCol && k == 1 && c == '-' else IsAlpha(c) && Change(p, k, c) == Some(m))
  {
    hide Change, Parent, Rank;
    ParentFirst(m);
    if m != MSearch {
      ParentInTable(m);
    }
  }

  lemma ParentFirst(m: Method)
    requires Parent(m).Some?
    ensures var (p, k, c) := Parent(m).value;
            && c != '\0' && Rank(p) < Rank(m) && (Parent(p).Some? ==> k > Parent(p).value.1)
            && (m == MSearch ==> p == MkCol && k == 1 && c == '-')
  {
  }

  lemma ParentInTable(m: Method)
    requires Parent(m).Some? && m != MSearch
    ensures var (p, k, c) := Parent(m).value; IsAlpha(c) && Change(p, k, c) == Some(m)
  {
  }

  /** A method without a parent is the first guess for its first letter. */
  lemma RootIsFirst(m: Method)
    requires Parent(m).None?
    ensures Name(m) != "" && IsAlpha(Name(m)[0]) && FirstGuess(Name(m)[0]) == Some(m)
  {
  }

  lemma FirstFits(c: char)
    requires FirstGuess(c).Some?
    ensures Name(FirstGuess(c).value) != "" && Name(FirstGuess(c).value)[0] == c
  {
  }

  // ---------------------------------------------------------------- what has been read is what was guessed

  /** The invariant: the bytes consumed are the index-long prefix of the current guess. */
  predicate Matches(state: State, read: string) {
    match state
    case Start => read == ""
    case Reading(guess, index) => 1 <= index <= |Name(guess)| && read == Name(guess)[..index]
    case Accepted(found) => read == Name(found) + " "
    case _ => true
  }

  lemma StepKeepsMatch(state: State, read: string, c: char)
    requires Matches(state, read) && !(state.Start? && (c == '\r' || c == '\n'))
    ensures Matches(Step(state, c), read + [c])
  {
    hide Name, Change, FirstGuess, Parent;
    if state.Start? && FirstGuess(c).Some? {
      FirstFits(c);
    }
    if state.Reading? {
      if Change(state.guess, state.index, c).Some? {
        ChangeFits(state.guess, state.index, c);
      }
      DashFits();
      var i, next := state.index, Step(state, c);
      if next.Reading? {
        assert Name(next.guess)[..i] + [c] == Name(next.guess)[..i + 1];
      } else if next.Accepted? {
        assert Name(state.guess)[..i] == Name(state.guess);
      }
    }
  }

  lemma ChangeFits(guess: Method, index: nat, c: char)
    requires Change(guess, index, c).Some?
    ensures var m := Change(guess, index, c).value;
            && index < |Name(m)| && index <= |Name(guess)|
            && Name(m)[..index] == Name(guess)[..index] && Name(m)[index] == c
  {
    hide Name, Change, Parent;
    ChangeIsParent(guess, index, c);
    ParentParts(Change(guess, index, c).value);
  }

  lemma DashFits()
    ensures |Name(MSearch)| > 1 && |Name(MkCol)| > 1
    ensures Name(MSearch)[..1] == Name(MkCol)[..1] && Name(MSearch)[1] == '-'
  {
  }

  lemma {:induction false} BodyGrows(text: string, c: char)
    ensures Body(text + [c]) == if Body(text) == "" && (c == '\r' || c == '\n') then "" else Body(text) + [c]
  {
    if text == "" {
      assert text + [c] == [c];
    } else {
      assert (text + [c])[1..] == text[1..] + [c];
      BodyGrows(text[1..], c);
    }
  }

  /** In every run, what has been read is the index-long prefix of the guess. */
  lemma {:induction false} RunMatches(text: string)
    ensures Matches(Run(Start, text), Body(text))
    ensures Run(Start, text).Start? <==> Body(text) == ""
  {
    if text != "" {
      var n := |text| - 1;
      RunMatches(text[..n]);
      BodyGrows(text[..n], text[n]);
      assert text[..n] + [text[n]] == text;
      hide Step, Name, FirstGuess, Change;
      StepNotStart(Run(Start, text[..n]), text[n]);
      if !(Run(Start, text[..n]).Start? && (text[n] == '\r' || text[n] == '\n')) {
        StepKeepsMatch(Run(Start, text[..n]), Body(text[..n]), text[n]);
      }
    }
  }

  lemma StepNotStart(state: State, c: char)
    ensures Step(state, c).Start? <==> state.Start? && (c == '\r' || c == '\n')
  {
    hide Name, FirstGuess, Change;
  }

  // ---------------------------------------------------------------- every method is found

  /** The next letter of a method takes its guess to the next guess. */
  lemma {:induction false} GuessSteps(m: Method, i: nat)
    requires 1 <= i < |Name(m)|
    ensures Step(Reading(Guess(m, i), i), Name(m)[i]) == Reading(Guess(m, i + 1), i + 1)
    decreases Rank(m)
  {
    hide Name, Parent, Change, Rank, Step;
    if Parent(m).None? || i > Parent(m).value.1 {
      GuessStays(m, i);
    } else if i == Parent(m).value.1 {
      GuessChanges(m);
    } else {
      var (p, k, c) := Parent(m).value;
      ParentParts(m);
      ParentChanges(m);
      assert Name(p)[i] == Name(p)[..k][i] == Name(m)[..k][i] == Name(m)[i];
      GuessSteps(p, i);
    }
  }

  lemma GuessStays(m: Method, i: nat)
    requires 1 <= i < |Name(m)| && (Parent(m).Some? ==> i > Parent(m).value.1)
    ensures Step(Reading(Guess(m, i), i), Name(m)[i]) == Reading(Guess(m, i + 1), i + 1)
  {
    NoBlank(m, i);
    hide Name, Parent, Change, Rank;
  }

  lemma GuessChanges(m: Method)
    requires Parent(m).Some? && 1 <= Parent(m).value.1 < |Name(m)|
    ensures var k := Parent(m).value.1;
            Step(Reading(Guess(m, k), k), Name(m)[k]) == Reading(Guess(m, k + 1), k + 1)
  {
    NoBlank(m, Parent(m).value.1);
    ParentParts(m);
    ParentChanges(m);
    hide Name, Parent, Change, Rank;
  }

  lemma NoBlank(m: Method, i: nat)
    requires i < |Name(m)|
    ensures Name(m)[i] != '\0' && Name(m)[i] != ' '
  {
    hide Name;
    if i < 2 {
      NoBlankFirst(m, i);
    } else if i == 2 {
      NoBlankThird(m);
    } else if i == 3 {
      NoBlankFourth(m);
    } else {
      NoBlankLate(m, i);
    }
  }

  lemma NoBlankFirst(m: Method, i: nat)
    requires i < 2 && i < |Name(m)|
    ensures Name(m)[i] != '\0' && Name(m)[i] != ' '
  {
  }

  lemma NoBlankThird(m: Method)
    requires 2 < |Name(m)|
    ensures Name(m)[2] != '\0' && Name(m)[2] != ' '
  {
  }

  lemma NoBlankFourth(m: Method)
    requires 3 < |Name(m)|
    ensures Name(m)[3] != '\0' && Name(m)[3] != ' '
  {
  }

  lemma NoBlankLate(m: Method, i: nat)
    requires 4 <= i < |Name(m)|
    ensures Name(m)[i] != '\0' && Name(m)[i] != ' '
  {
  }

  lemma {:induction false} FirstStep(m: Method)
    ensures Name(m) != "" && Step(Start, Name(m)[0]) == Reading(Guess(m, 1), 1)
    decreases Rank(m)
  {
    if Parent(m).None? {
      RootIsFirst(m);
    } else {
      var (p, k, c) := Parent(m).value;
      ParentParts(m);
      ParentChanges(m);
      assert Name(p)[0] == Name(p)[..k][0] == Name(m)[..k][0] == Name(m)[0];
      FirstStep(p);
    }
  }

  /** Reading a method from its start, the recogniser follows its guesses. */
  lemma {:induction false} ReadsMethod(m: Method, i: nat)
    requires 1 <= i <= |Name(m)|
    ensures Run(Start, Name(m)[..i]) == Reading(Guess(m, i), i)
  {
    hide Step, Guess;
    var read := Name(m)[..i];
    assert read[..i - 1] == Name(m)[..i - 1];
    if i == 1 {
      FirstStep(m);
    } else {
      ReadsMethod(m, i - 1);
      GuessSteps(m, i - 1);
    }
  }

  lemma {:induction false} SkipsLineEnds(text: string)
    ensures Run(Start, text) == Run(Start, Body(text))
  {
    if text != "" {
      var n := |text| - 1;
      SkipsLineEnds(text[..n]);
      BodyGrows(text[..n], text[n]);
      assert text[..n] + [text[n]] == text;
      var body := Body(text);
      if body != "" {
        assert body[..|body| - 1] == Body(text[..n]);
      }
      hide Name, FirstGuess, Change;
    }
  }

  lemma GuessEnds(m: Method)
    ensures Name(m) != "" && Guess(m, |Name(m)|) == m
  {
    if Parent(m).Some? {
      ParentParts(m);
    } else {
      RootIsFirst(m);
    }
  }

  lemma Accepts(m: Method)
    ensures Run(Start, Name(m) + " ") == Accepted(m)
  {
    var text := Name(m) + " ";
    assert text[..|text| - 1] == Name(m) == Name(m)[..|Name(m)|];
    GuessEnds(m);
    hide Name, FirstGuess, Change, Guess;
    ReadsMethod(m, |Name(m)|);
  }

  /** For every text, the parser has just passed a method and its space exactly when the text, line ends
      before it aside, is that method's string and a space. */
  lemma RecognisesTable(text: string, m: Method)
    ensures Run(Start, text) == Accepted(m) <==> Body(text) == Name(m) + " "
  {
    hide Name, Step, Run, Body;
    RunMatches(text);
    SkipsLineEnds(text);
    Accepts(m);
    if Run(Start, text) == Accepted(m) {
      assert Matches(Accepted(m), Body(text));
    }
  }

  /** The parser is inside a method exactly when what it has read can still become one: it gives up at
      the first letter that rules every method out. */
  lemma ReadsExactlyPrefixes(text: string)
    ensures Run(Start, text).Reading? <==> Body(text) != "" && exists m :: Body(text) <= Name(m)
  {
    hide Name, Step, Run, Body;
    RunMatches(text);
    SkipsLineEnds(text);
    var state := Run(Start, text);
    if state.Reading? {
      assert Body(text) <= Name(state.guess);
    } else if Body(text) != "" {
      forall m | Body(text) <= Name(m) ensures false {
        assert Body(text) == Name(m)[..|Body(text)|];
        ReadsMethod(m, |Body(text)|);
      }
    }
  }

  // ---------------------------------------------------------------- fed piece by piece

  class Recogniser {
    var state: State

    constructor ()
      ensures state == Start
    {
      state := Start;
    }

    /** Takes bytes until the word is accepted or refused, or the piece ends. */
    method Feed(data: string) returns (used: nat)
      modifies this
      ensures used <= |data| && state == Run(old(state), data[..used])
      ensures used < |data| ==> !state.Start? && !state.Reading?
      ensures forall k :: 0 <= k < used ==> Run(old(state), data[..k]).Start? || Run(old(state), data[..k]).Reading?
    {
      hide Name, Step;
      used := 0;
      while used < |data| && (state.Start? || state.Reading?)
        invariant used <= |data| && state == Run(old(state), data[..used])
        invariant forall k :: 0 <= k < used ==> Run(old(state), data[..k]).Start? || Run(old(state), data[..k]).Reading?
      {
        assert data[..used + 1][..used] == data[..used];
        state := Step(state, data[used]);
        used := used + 1;
      }
    }
  }
}
