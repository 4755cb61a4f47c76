/** The per-user pending-search flag kept in `context.user_data` under
    `'esperando_busqueda'` by `solicitar_busqueda` and
    `buscar_pelicula_message_handler`. `None` is the key not being there. */
module SearchFlag {
  import opened Wrappers

  /** What reaches the two handlers: the search button, or a plain text message. */
  datatype Event = SearchButton | TextMessage(text: string)

  /** `context.user_data.get('esperando_busqueda')` is truthy. */
  predicate Awaiting(flag: Option<bool>) {
    flag == Some(true)
  }

  /** One event: the search it launches, if any, and the new flag. */
  function Step(flag: Option<bool>, e: Event): (r: (Option<string>, Option<bool>))
    ensures r.0.Some? <==> e.TextMessage? && Awaiting(flag)
    ensures r.0.Some? ==> r.0.value == e.text && r.1 == Some(false)
    ensures e.SearchButton? ==> r.1 == Some(true)
    ensures e.TextMessage? && r.0.None? ==> r.1 == flag
  {
    match e
    case SearchButton => (None, Some(true))
    case TextMessage(text) => if Awaiting(flag) then (Some(text), Some(false)) else (None, flag)
  }

  function Searches(q: Option<string>): seq<string> {
    if q.Some? then [q.value] else []
  }

  /** A run of events: the queries searched, in order, and the final flag. */
  function Run(flag: Option<bool>, events: seq<Event>): (r: (seq<string>, Option<bool>))
    ensures |r.0| + CountButtons(events) <= |events|
    ensures events == [] ==> r.0 == [] && r.1 == flag
  {
    if events == [] then ([], flag)
    else
      var before := Run(flag, events[..|events| - 1]);
      var step := Step(before.1, events[|events| - 1]);
      (before.0 + Searches(step.0), step.1)
  }

  /** A run extended by one event. */
  lemma RunSnoc(flag: Option<bool>, events: seq<Event>, e: Event)
    ensures var before := Run(flag, events);
      Run(flag, events + [e])
        == (before.0 + Searches(Step(before.1, e).0), Step(before.1, e).1)
  {
    assert (events + [e])[..|events|] == events;
  }

  /** The user data of one user. */
  class UserData {
    var awaitingSearch: Option<bool>

    constructor ()
      ensures awaitingSearch == None
    {
      awaitingSearch := None;
    }

    /** Line 177: the search button sets the flag. */
    method RequestSearch()
      modifies this
      ensures awaitingSearch == Some(true)
      ensures (None, awaitingSearch) == Step(old(awaitingSearch), SearchButton)
    {
      awaitingSearch := Some(true);
    }

    /** Lines 166-173: a text message is searched for only while the flag
        is set, and then clears it; otherwise nothing happens. */
    method HandleText(text: string) returns (search: Option<string>)
      modifies this
      ensures (search, awaitingSearch) == Step(old(awaitingSearch), TextMessage(text))
      ensures search.Some? <==> Awaiting(old(awaitingSearch))
      ensures search.Some? ==> search.value == text && awaitingSearch == Some(false)
      ensures search.None? ==> awaitingSearch == old(awaitingSearch)
    {
      if awaitingSearch == Some(true) {
        search := Some(text);
        awaitingSearch := Some(false);
      } else {
        search := None;
      }
    }
  }

  function CountButtons(events: seq<Event>): nat {
    if events == [] then 0
    else CountButtons(events[..|events| - 1]) + (if events[|events| - 1].SearchButton? then 1 else 0)
  }

  /** The flag is set exactly when the last event was the search button
      (or, before any event, when it was set to begin with). */
  lemma FlagFollowsLastEvent(flag: Option<bool>, events: seq<Event>)
    ensures Awaiting(Run(flag, events).1)
            <==> (if events == [] then Awaiting(flag) else events[|events| - 1].SearchButton?)
  {
  }

  /** Each press of the search button enables at most one search. */
  lemma {:induction false} OneSearchPerRequest(flag: Option<bool>, events: seq<Event>)
    ensures |Run(flag, events).0| + (if Awaiting(Run(flag, events).1) then 1 else 0)
            <= CountButtons(events) + (if Awaiting(flag) then 1 else 0)
  {
    if events != [] {
      OneSearchPerRequest(flag, events[..|events| - 1]);
    }
  }

  /** Every query searched is the text of one of the messages. */
  lemma {:induction false} SearchesAreMessages(flag: Option<bool>, events: seq<Event>, k: nat)
    requires k < |Run(flag, events).0|
    ensures exists i :: 0 <= i < |events| && events[i] == TextMessage(Run(flag, events).0[k])
  {
    var init := events[..|events| - 1];
    var queries := Run(flag, init).0;
    if k < |queries| {
      SearchesAreMessages(flag, init, k);
      var i :| 0 <= i < |init| && init[i] == TextMessage(queries[k]);
      assert events[i] == init[i];
    } else {
      assert events[|events| - 1] == TextMessage(Run(flag, events).0[k]);
    }
  }

  /** With the flag not set and no press of the button, messages do nothing. */
  lemma {:induction false} IdleIgnoresMessages(flag: Option<bool>, events: seq<Event>)
    requires !Awaiting(flag)
    requires SearchButton !in events
    ensures Run(flag, events).0 == [] && Run(flag, events).1 == flag
  {
    if events != [] {
      var init := events[..|events| - 1];
      assert events == init + [events[|events| - 1]];
      assert SearchButton !in init;
      IdleIgnoresMessages(flag, init);
      assert Step(flag, events[|events| - 1]) == (None, flag);
    }
  }

  /** The typical exchange: after the button, the first message
      is searched and the second is not. */
  lemma ButtonThenTwoMessages(flag: Option<bool>, a: string, b: string)
    ensures var r := Run(flag, [SearchButton, TextMessage(a), TextMessage(b)]);
      r.0 == [a] && r.1 == Some(false)
  {
    RunSnoc(flag, [], SearchButton);
    assert [] + [SearchButton] == [SearchButton];
    var r1 := Run(flag, [SearchButton]);
    assert r1.0 == [] && r1.1 == Some(true);
    RunSnoc(flag, [SearchButton], TextMessage(a));
    assert [SearchButton] + [TextMessage(a)] == [SearchButton, TextMessage(a)];
    var r2 := Run(flag, [SearchButton, TextMessage(a)]);
    assert r2.0 == [a] && r2.1 == Some(false);
    RunSnoc(flag, [SearchButton, TextMessage(a)], TextMessage(b));
    assert [SearchButton, TextMessage(a)] + [TextMessage(b)] == [SearchButton, TextMessage(a), TextMessage(b)];
  }

  /** A client of the class: the same scenario through the handlers. */
  method ButtonThenTwoMessagesOnUserData(user: UserData, a: string, b: string)
    returns (first: Option<string>, second: Option<string>)
    modifies user
    ensures first == Some(a) && second == None && user.awaitingSearch == Some(false)
  {
    user.RequestSearch();
    first := user.HandleText(a);
    second := user.HandleText(b);
  }
}
