/**
 * The request handlers of the remote-control server and the one piece of
 * process-wide state they share: the index of the focused element in the
 * most recent DOM query. DOM queries are inputs (an empty list stands for
 * a failed or empty query); shell commands and browser scripts are
 * recorded in a command log instead of being run.
 */
module Server {
  import opened Wrappers
  import opened Geometry
  import opened Ranking
  import opened Escaping

  /** An external effect: a command line handed to the shell, or a script
      sent to the browser. */
  datatype Command =
    | Shell(line: string)
    | FocusScript(index: nat)   // focus, scroll to and outline element `index` of a fresh query
    | SetLocation(url: string)  // assign window.location.href
    | LaunchBrowser             // start the kiosk browser if it is not running
    | InjectHighlight           // (re)install the focus highlight overlay

  /** What navigate_direction does: return a boolean, or raise IndexError
      when the focus index is past the end of the current query result. */
  datatype Outcome = Returned(ok: bool) | IndexError

  /** An HTTP reply: a JSON body with its success flag and status code, or
      the error page served for an uncaught exception. */
  datatype Reply = Json(success: bool, status: nat) | InternalServerError

  /** The effect of one navigation step: what it returns, the focus index
      afterwards, and the element it asks the browser to focus, if any. */
  datatype Step = Step(outcome: Outcome, index: int, focused: Option<nat>)

  /** focus_element(j) against the fresh query result, starting from index. */
  function FocusStep(j: nat, requeried: seq<Element>, index: int): Step
  {
    if j < |requeried| then Step(Returned(true), j, Some(j)) else Step(Returned(false), index, None)
  }

  /** navigate_direction on the query results `elements` (its own query)
      and `requeried` (the one focus_element makes), from focus index `index`. */
  function NavigationStep(direction: string, elements: seq<Element>, requeried: seq<Element>, index: int): Step
  {
    if |elements| == 0 then Step(Returned(false), index, None)
    else if index < 0 then FocusStep(0, requeried, 0)
    else if index >= |elements| then Step(IndexError, index, None)
    else
      match Target(direction, elements, index)
      case None => Step(Returned(false), index, None)
      case Some(j) => FocusStep(j, requeried, index)
  }

  function FocusCommands(s: Step): seq<Command>
  {
    if s.focused.Some? then [FocusScript(s.focused.value)] else []
  }

  /** The reply /api/navigate sends for a navigation outcome. */
  function NavigateReply(o: Outcome): Reply
  {
    match o
    case Returned(ok) => Json(ok, 200)
    case IndexError => InternalServerError
  }

  /** The key `enter` and `back` are sent as; other directions send no key. */
  function KeyFor(direction: string): Option<string>
  {
    if direction == "enter" then Some("Return")
    else if direction == "back" then Some("Escape")
    else None
  }

  /** The synthetic-typing command line for a text. */
  function TypeCommand(text: string): string
  {
    "xdotool type \"" + Escape(text) + "\""
  }

  class ServerState {
    /** Index of the focused element in the most recent query result; -1
        when nothing has been focused since start-up or the last close. */
    var currentFocusIndex: int
    /** Every external command issued so far, oldest first. */
    var commands: seq<Command>

    constructor ()
      ensures currentFocusIndex == -1 && commands == []
    {
      currentFocusIndex := -1;
      commands := [];
    }

    /** focus_element: `requeried` is the query it makes itself. */
    method FocusElement(index: int, requeried: seq<Element>) returns (ok: bool)
      modifies this
      ensures ok <==> 0 <= index < |requeried|
      ensures currentFocusIndex == if ok then index else old(currentFocusIndex)
      ensures commands == old(commands) + if ok then [FocusScript(index)] else []
    {
      if 0 <= index < |requeried| {
        currentFocusIndex := index;
        commands := commands + [FocusScript(index)];
        return true;
      }
      return false;
    }

    /** navigate_direction: `elements` is its own query and `requeried` the one
        focus_element makes. */
    method NavigateDirection(direction: string, elements: seq<Element>, requeried: seq<Element>)
      returns (r: Outcome)
      modifies this
      ensures var s := NavigationStep(direction, elements, requeried, old(currentFocusIndex));
              r == s.outcome && currentFocusIndex == s.index &&
              commands == old(commands) + FocusCommands(s)
    {
      if |elements| == 0 {
        return Returned(false);
      }
      if currentFocusIndex < 0 {
        currentFocusIndex := 0;
        var ok := FocusElement(0, requeried);
        return Returned(ok);
      }
      if currentFocusIndex >= |elements| {
        return IndexError;
      }
      var cur: nat := currentFocusIndex;
      var current := elements[cur];
      var candidates: seq<Candidate> := [];
      for i := 0 to |elements|
        invariant candidates == CandidatesUpTo(direction, elements, cur, i)
      {
        if i != cur {
          var c := Classify(direction, current, elements[i], i);
          if c.Some? {
            candidates := candidates + [c.value];
          }
        }
      }
      if |candidates| > 0 {
        candidates := SortByKey(candidates);
        var ok := FocusElement(candidates[0].index, requeried);
        return Returned(ok);
      }
      return Returned(false);
    }

    /** POST /api/close: kills the browser and forgets the focus. */
    method CloseChromium() returns (reply: Reply)
      modifies this
      ensures reply == Json(true, 200)
      ensures currentFocusIndex == -1
      ensures commands == old(commands) + [Shell("pkill chromium")]
    {
      commands := commands + [Shell("pkill chromium")];
      currentFocusIndex := -1;
      reply := Json(true, 200);
    }

    /** POST /api/navigate: `enter` and `back` become key presses, every
        other direction string a navigation step. */
    method Navigate(direction: string, elements: seq<Element>, requeried: seq<Element>)
      returns (reply: Reply)
      modifies this
      ensures KeyFor(direction).Some? ==>
        reply == Json(true, 200) && currentFocusIndex == old(currentFocusIndex) &&
        commands == old(commands) + [Shell("xdotool key " + KeyFor(direction).value)]
      ensures KeyFor(direction).None? ==>
        var s := NavigationStep(direction, elements, requeried, old(currentFocusIndex));
        reply == NavigateReply(s.outcome) && currentFocusIndex == s.index &&
        commands == old(commands) + FocusCommands(s)
    {
      if direction == "enter" || direction == "back" {
        var key := if direction == "enter" then "Return" else "Escape";
        commands := commands + [Shell("xdotool key " + key)];
        return Json(true, 200);
      }
      var r := NavigateDirection(direction, elements, requeried);
      reply := NavigateReply(r);
    }

    /** POST /api/text: an empty text is refused before anything runs. */
    method InputText(text: string) returns (reply: Reply)
      modifies this
      ensures text == [] ==> reply == Json(false, 400) && commands == old(commands)
      ensures text != [] ==> reply == Json(true, 200) && commands == old(commands) + [Shell(TypeCommand(text))]
      ensures currentFocusIndex == old(currentFocusIndex)
    {
      if text == [] {
        return Json(false, 400);
      }
      var escaped := Escape(text);
      commands := commands + [Shell("xdotool type \"" + escaped + "\"")];
      reply := Json(true, 200);
    }

    /** POST /api/url: an empty URL is refused before anything runs;
        otherwise the browser is checked for (and started when `running`
        says it is not), sent to the URL and given a new overlay. */
    method OpenUrl(url: string, running: bool) returns (reply: Reply)
      modifies this
      ensures url == [] ==> reply == Json(false, 400) && commands == old(commands)
      ensures url != [] ==> reply == Json(true, 200)
      ensures url != [] ==>
        commands == old(commands) + [Shell("pgrep chromium")] + (if running then [] else [LaunchBrowser])
                    + [SetLocation(url), InjectHighlight]
      ensures currentFocusIndex == old(currentFocusIndex)
    {
      if url == [] {
        return Json(false, 400);
      }
      commands := commands + [Shell("pgrep chromium")];
      if !running {
        commands := commands + [LaunchBrowser];
      }
      commands := commands + [SetLocation(url), InjectHighlight];
      reply := Json(true, 200);
    }
  }

  // -----------------------------------------------------------------------
  // Properties of a navigation step.
  // -----------------------------------------------------------------------

  /** With no elements the step fails and the index is kept. */
  lemma NoElementsNoMove(direction: string, requeried: seq<Element>, index: int)
    ensures var s := NavigationStep(direction, [], requeried, index);
            s.outcome == Returned(false) && s.index == index && s.focused == None
  {
  }

  /** Bootstrap: with nothing focused and elements present, whatever the
      direction, the index becomes 0 and element 0 is focused when the
      fresh query has one; the index is 0 even when it has none. */
  lemma Bootstrap(direction: string, elements: seq<Element>, requeried: seq<Element>, index: int)
    requires |elements| > 0 && index < 0
    ensures var s := NavigationStep(direction, elements, requeried, index);
            s.index == 0 &&
            s.outcome == Returned(|requeried| > 0) &&
            s.focused == (if |requeried| > 0 then Some(0) else None)
  {
  }

  /** A successful move from a focused element goes to a different element
      in range of the fresh query, beyond the dead zone for the direction,
      and is the element Target ranks first. */
  lemma MoveQualifies(direction: string, elements: seq<Element>, requeried: seq<Element>, index: int)
    requires 0 <= index
    requires NavigationStep(direction, elements, requeried, index).outcome == Returned(true)
    ensures var s := NavigationStep(direction, elements, requeried, index);
            index < |elements| && 0 <= s.index < |requeried| && s.index != index &&
            s.focused == Some(s.index) &&
            Qualifies(direction, elements, index, s.index) &&
            Target(direction, elements, index) == Some(s.index)
  {
    TargetQualifies(direction, elements, index);
  }

  /** A failed step from a focused element leaves the index where it was and
      focuses nothing; this covers an empty query, an unknown direction,
      no qualifying element, an out-of-range index and a fresh query too
      short for the winner. */
  lemma FailureKeepsIndex(direction: string, elements: seq<Element>, requeried: seq<Element>, index: int)
    requires 0 <= index
    requires NavigationStep(direction, elements, requeried, index).outcome != Returned(true)
    ensures var s := NavigationStep(direction, elements, requeried, index);
            s.index == index && s.focused == None
  {
  }

  /** From a valid focused index, a step succeeds exactly when some element
      qualifies and the winner is in range of the fresh query. */
  lemma MoveIff(direction: string, elements: seq<Element>, requeried: seq<Element>, index: nat)
    requires index < |elements|
    ensures NavigationStep(direction, elements, requeried, index).outcome == Returned(true) <==>
            (exists k :: 0 <= k < |elements| && Qualifies(direction, elements, index, k)) &&
            Target(direction, elements, index).Some? && Target(direction, elements, index).value < |requeried|
  {
    TargetNoneIff(direction, elements, index);
  }

  /** An unknown direction string never moves a focused index. */
  lemma UnknownDirectionFails(direction: string, elements: seq<Element>, requeried: seq<Element>, index: nat)
    requires index < |elements|
    requires direction != "up" && direction != "down" && direction != "left" && direction != "right"
    ensures NavigationStep(direction, elements, requeried, index) == Step(Returned(false), index, None)
  {
    UnknownDirectionNoTarget(direction, elements, index);
  }

  /** The typed text sits between the quotes of the command line, escaped,
      and unescaping it recovers the text exactly. */
  lemma TypeCommandArgument(text: string)
    ensures var line := TypeCommand(text);
            var prefix := "xdotool type \"";
            |line| == |prefix| + |text| + QuoteCount(text) + 1 &&
            line[..|prefix|] == prefix && line[|line| - 1] == '"' &&
            Unescape(line[|prefix|..|line| - 1]) == text
  {
    var prefix := "xdotool type \"";
    var line := TypeCommand(text);
    EscapeLength(text);
    UnescapeEscape(text);
    assert line[|prefix|..|line| - 1] == Escape(text);
  }
}
