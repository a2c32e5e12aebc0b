/**
 * The simulated chat box: on submit it replays the typed message back as the
 * assistant's reply one code unit per timer tick, showing a cursor while it
 * does so. The timer (50 ms) is a step: each call of `Tick` is one run of the
 * effect, with the message held fixed while the reply is being typed out.
 *
 * `message.length` and `message[i]` count UTF-16 code units, so the reply is a
 * sequence of code units: a character outside the Basic Multilingual Plane
 * takes two ticks, and after the first of them the reply ends in a lone
 * high surrogate.
 */
module ChatInputWithoutOutline {
  import opened Wrappers
  import Js

  /** The reply shown before anything is submitted. */
  const Greeting := "Hello! I'm your AI assistant. How can I help you today?"

  /** The greeting as the code units the reply starts with: one per character, as it is plain ASCII (`Js.BmpUnitsAreUtf16`). */
  const GreetingUnits: seq<Js.CodeUnit> := Js.BmpUnits(Greeting)

  /** The component's four pieces of state; the reply is held as the code units typed into it. */
  datatype Screen = Screen(message: string, robotMessage: seq<Js.CodeUnit>, isStreaming: bool, streamIndex: nat)

  /** `message.length`: the number of code units, never fewer than the characters, zero only for "". */
  function Length(m: string): (n: nat)
    ensures n >= |m|
    ensures n == 0 <==> m == ""
  {
    |Js.Utf16(m)|
  }

  /** While typing, the reply is exactly the part of the message typed so far. */
  ghost predicate TypedSoFar(s: Screen)
  {
    s.isStreaming ==> s.streamIndex <= Length(s.message) && s.robotMessage == Js.Utf16(s.message)[..s.streamIndex]
  }

  /** The state right after an accepted submit of `m`: typing from an empty reply at the start of the message. */
  function Submitted(m: string): (r: Screen)
    ensures r.message == m && r.isStreaming && r.streamIndex == 0
    ensures TypedSoFar(r)
  {
    Screen(m, [], true, 0)
  }

  /**
   * One run of the effect: type the code unit `message[streamIndex]`, or stop
   * once the whole message is out. The message never changes, a settled state
   * is left as it is, and typing never restarts on its own.
   */
  function Step(s: Screen): (r: Screen)
    ensures r.message == s.message
    ensures !s.isStreaming ==> r == s
    ensures s.isStreaming && s.streamIndex <= Length(s.message) ==>
              (r.isStreaming <==> s.streamIndex < Length(s.message))
    ensures s.isStreaming && s.streamIndex < Length(s.message) ==>
              r.streamIndex == s.streamIndex + 1 && r.robotMessage == s.robotMessage + [Js.Utf16(s.message)[s.streamIndex]]
  {
    var units := Js.Utf16(s.message);
    if s.isStreaming && s.streamIndex < |units| then
      s.(robotMessage := s.robotMessage + [units[s.streamIndex]], streamIndex := s.streamIndex + 1)
    else if s.isStreaming && s.streamIndex == |units| then
      s.(isStreaming := false)
    else
      s
  }

  /** `n` runs of the effect in a row; the message stays as it was. */
  function Steps(s: Screen, n: nat): (r: Screen)
    ensures r.message == s.message
    ensures !s.isStreaming ==> r == s
    decreases n
  {
    if n == 0 then s else Steps(Step(s), n - 1)
  }

  /** A tick keeps the reply equal to the typed prefix and never changes the message. */
  lemma StepKeepsTypedSoFar(s: Screen)
    requires TypedSoFar(s)
    ensures TypedSoFar(Step(s)) && Step(s).message == s.message
  {
    var units := Js.Utf16(s.message);
    if s.isStreaming && s.streamIndex < |units| {
      assert units[..s.streamIndex + 1] == units[..s.streamIndex] + [units[s.streamIndex]];
    }
  }

  /** From a consistent typing state, `n` more ticks (while code units remain) type exactly the next `n` code units. */
  lemma {:induction false} TicksTypePrefix(s: Screen, n: nat)
    requires s.isStreaming && TypedSoFar(s)
    requires s.streamIndex + n <= Length(s.message)
    ensures Steps(s, n) == s.(robotMessage := Js.Utf16(s.message)[..s.streamIndex + n], streamIndex := s.streamIndex + n)
    decreases n
  {
    if n > 0 {
      StepKeepsTypedSoFar(s);
      TicksTypePrefix(Step(s), n - 1);
    } else {
      assert s.robotMessage == Js.Utf16(s.message)[..s.streamIndex];
    }
  }

  /** Once typing has stopped, further ticks change nothing. */
  lemma {:induction false} SettledStaysSettled(s: Screen, n: nat)
    requires !s.isStreaming
    ensures Steps(s, n) == s
    decreases n
  {
    if n > 0 {
      SettledStaysSettled(Step(s), n - 1);
    }
  }

  /**
   * After a submit of `m`, the reply is the first `k` code units of `m` and
   * typing goes on for every `k <= m.length` ticks; exactly one tick after
   * `m.length` ticks typing has stopped with the reply equal to the whole
   * message, and it stays so.
   */
  lemma {:induction false} TypesWholeMessage(m: string, k: nat, extra: nat)
    requires k <= Length(m)
    ensures Steps(Submitted(m), k) == Screen(m, Js.Utf16(m)[..k], true, k)
    ensures Steps(Submitted(m), Length(m) + 1 + extra) == Screen(m, Js.Utf16(m), false, Length(m))
  {
    var u := Js.Utf16(m);
    TicksTypePrefix(Submitted(m), k);
    TicksTypePrefix(Submitted(m), |u|);
    StepsSplit(Submitted(m), |u|, 1 + extra);
    assert u[..|u|] == u;
    var done := Screen(m, u, false, |u|);
    assert Step(Screen(m, u, true, |u|)) == done;
    SettledStaysSettled(done, extra);
  }

  /** The whole reply, once typed, reads back as the message: typing loses and adds no character. */
  lemma TypedReplyIsMessage(m: string, extra: nat)
    ensures Js.FromUtf16(Steps(Submitted(m), Length(m) + 1 + extra).robotMessage) == Some(m)
  {
    TypesWholeMessage(m, 0, extra);
    Js.Utf16RoundTrip(m);
  }

  /** Running `p` ticks and then `q` more is running `p + q` ticks. */
  lemma {:induction false} StepsSplit(s: Screen, p: nat, q: nat)
    ensures Steps(s, p + q) == Steps(Steps(s, p), q)
    decreases p
  {
    if p > 0 {
      StepsSplit(Step(s), p - 1, q);
    }
  }

  /** The component instance: the four state variables, updated by its handlers and its effect. */
  class Typewriter {
    var message: string
    var robotMessage: seq<Js.CodeUnit>
    var isStreaming: bool
    var streamIndex: nat

    function View(): Screen
      reads this
    {
      Screen(message, robotMessage, isStreaming, streamIndex)
    }

    constructor ()
      ensures View() == Screen("", GreetingUnits, false, 0)
    {
      message, robotMessage, isStreaming, streamIndex := "", GreetingUnits, false, 0;
    }

    /** The input's `onChange`: the typed text replaces the message; nothing else changes. */
    method SetMessage(value: string)
      modifies this
      ensures View() == old(View()).(message := value)
    {
      message := value;
    }

    /**
     * Submit: accepted only when the message is not blank and no reply is being
     * typed; then typing restarts from an empty reply. Otherwise nothing changes.
     */
    method HandleSubmit() returns (accepted: bool)
      modifies this
      ensures accepted <==> !Js.IsBlank(old(message)) && !old(isStreaming)
      ensures accepted ==> View() == Submitted(old(message)) && TypedSoFar(View())
      ensures !accepted ==> View() == old(View())
    {
      accepted := !Js.IsBlank(message) && !isStreaming;
      if accepted {
        isStreaming := true;
        streamIndex := 0;
        robotMessage := [];
      }
    }

    /** The clear button: empties the message, and nothing else. */
    method HandleClear()
      modifies this
      ensures View() == old(View()).(message := "")
    {
      message := "";
    }

    /** One run of the effect. */
    method Tick()
      modifies this
      ensures View() == Step(old(View()))
      ensures TypedSoFar(old(View())) ==> TypedSoFar(View())
    {
      var units := Js.Utf16(message);
      if isStreaming && streamIndex < |units| {
        robotMessage := robotMessage + [units[streamIndex]];
        streamIndex := streamIndex + 1;
      } else if isStreaming && streamIndex == |units| {
        isStreaming := false;
      }
      if TypedSoFar(old(View())) {
        StepKeepsTypedSoFar(old(View()));
      }
    }
  }

  /** A submit of "hi", then ticks until done; a submit while typing is ignored. */
  method TypewriterScenario()
  {
    assert Js.Utf16("hi") == [104, 105] by {
      assert Js.Utf16("hi") == Js.Utf16Char('h') + Js.Utf16("i");
      assert Js.Utf16("i") == Js.Utf16Char('i') + Js.Utf16("");
    }
    assert !Js.IsBlank("hi") by { assert !Js.IsSpace("hi"[0]); }
    var w := new Typewriter();
    w.SetMessage("hi");
    var ok := w.HandleSubmit();
    assert ok;
    w.Tick();
    assert w.robotMessage == [104];
    var again := w.HandleSubmit();
    assert !again && w.robotMessage == [104];
    w.Tick();
    w.Tick();
    assert w.robotMessage == [104, 105] && !w.isStreaming;
    w.HandleClear();
    assert w.message == "" && w.robotMessage == [104, 105];
  }

  /** An emoji is two code units: the first tick shows a lone high surrogate, the second the emoji, the third stops. */
  method EmojiScenario()
  {
    var m := "\U{1F600}";
    assert Js.Utf16(m) == [0xD83D, 0xDE00] by {
      assert Js.Utf16(m) == Js.Utf16Char(m[0]) + Js.Utf16("");
    }
    assert !Js.IsBlank(m) by { assert !Js.IsSpace(m[0]); }
    var w := new Typewriter();
    w.SetMessage(m);
    var ok := w.HandleSubmit();
    w.Tick();
    assert w.robotMessage == [0xD83D] && w.isStreaming;
    w.Tick();
    assert w.robotMessage == [0xD83D, 0xDE00] && w.isStreaming;
    w.Tick();
    assert !w.isStreaming;
  }
}
