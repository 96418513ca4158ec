/** The message centre (static/js/main2.js): the conversation tabs that
    filter the list, the chat panel that opens a conversation, and the
    composer that sends a message.

    The clock (`nowTime`) is a parameter `now`; the markup of a message and
    the scrolling of the panel are not modelled. */
module MessageCentre {
  import opened Wrappers
  import opened Text

  // ---------------------------------------------------------------------
  // Conversation tabs

  /** A JavaScript `a || b` on strings: `a` unless it is missing or empty. */
  function OrElse(a: Option<string>, b: string): (r: string)
    ensures a.Some? && a.value != [] ==> r == a.value
    ensures a.None? || a.value == [] ==> r == b
  {
    if a.Some? && a.value != [] then a.value else b
  }

  /** The filter a tab selects: its `data-filter`, or else its lower-cased text. */
  function TabFilter(dataFilter: Option<string>, tabText: string): (f: string)
    ensures dataFilter.Some? && dataFilter.value != [] ==> f == dataFilter.value
    ensures dataFilter.None? || dataFilter.value == [] ==> f == Lower(tabText)
  {
    OrElse(dataFilter, Lower(tabText))
  }

  /** Whether a conversation with the given `data-type` is shown under a
      filter: "all" shows everything, any other filter shows the
      conversations of exactly that type (a missing type reads as ""). */
  predicate ConversationShown(filter: string, dataType: Option<string>) {
    filter == "all" || OrElse(dataType, "") == filter
  }

  /** The "all" tab shows every conversation. */
  lemma AllTabShowsEverything(dataType: Option<string>)
    ensures ConversationShown("all", dataType)
  {
  }

  /** Under any other non-empty filter a conversation is shown exactly when
      its type is that filter. */
  lemma ShownIffTypeMatches(filter: string, dataType: Option<string>)
    requires filter != "all" && filter != []
    ensures ConversationShown(filter, dataType) <==> dataType == Some(filter)
  {
  }

  /** Two different tabs other than "all" never show the same conversation. */
  lemma TabsAreDisjoint(f1: string, f2: string, dataType: Option<string>)
    requires f1 != f2 && f1 != "all" && f2 != "all"
    ensures !(ConversationShown(f1, dataType) && ConversationShown(f2, dataType))
  {
  }

  /** A tab without `data-filter` whose text reads "All" (in any case) acts
      as the "all" tab. */
  lemma AllTextTabShowsEverything(tabText: string, dataType: Option<string>)
    requires Lower(tabText) == "all"
    ensures ConversationShown(TabFilter(None, tabText), dataType)
  {
  }

  // ---------------------------------------------------------------------
  // Chat panel

  datatype Kind = Sent | Received

  /** One message bubble: its text, its kind and its time stamp. */
  datatype Message = Message(text: string, kind: Kind, time: string)

  /** What the composer sends for an input: nothing when the input is
      blank, otherwise the trimmed input. */
  function Outgoing(input: string): (m: Option<string>)
    ensures m.None? <==> Blank(input)
    ensures m.Some? ==> m.value == Trim(input) && m.value != []
    ensures m.Some? ==> !IsWhitespace(m.value[0]) && !IsWhitespace(m.value[|m.value| - 1])
  {
    TrimEmptyIffBlank(input);
    var text := Trim(input);
    if text == [] then None else Some(text)
  }

  /** Sending is insensitive to surrounding blanks: a trimmed input sends
      the same as the raw one. */
  lemma OutgoingIgnoresPadding(input: string)
    ensures Outgoing(Trim(input)) == Outgoing(input)
  {
    TrimIdempotent(input);
  }

  /** The chat panel: the header title, the message list and the composer's
      text. A page may lack the header or the message list; writes to a
      missing one are skipped. */
  class ChatPanel {
    const hasHeader: bool
    const hasBody: bool
    var header: string
    var messages: seq<Message>
    var input: string

    /** The panel as the page's markup delivers it: which parts exist, and
        the header, messages and composer text already there. */
    constructor(hasHeader: bool, hasBody: bool, header: string, messages: seq<Message>, input: string)
      ensures this.hasHeader == hasHeader && this.hasBody == hasBody
      ensures this.header == header && this.messages == messages && this.input == input
    {
      this.hasHeader := hasHeader;
      this.hasBody := hasBody;
      this.header := header;
      this.messages := messages;
      this.input := input;
    }

    /** `appendMessage`: adds one bubble at the end of the list, stamped with
        `time` or, when that is missing or empty, with `now`. */
    method AppendMessage(text: string, kind: Kind, time: Option<string>, now: string)
      modifies this
      ensures messages == old(messages) + (if hasBody then [Message(text, kind, OrElse(time, now))] else [])
      ensures header == old(header) && input == old(input)
    {
      if !hasBody {
        return;
      }
      messages := messages + [Message(text, kind, OrElse(time, now))];
    }

    /** `sendMessage`: a blank composer changes nothing; otherwise the
        trimmed text is appended once as a sent message stamped `now` and the
        composer is cleared. */
    method SendMessage(now: string)
      modifies this
      ensures Outgoing(old(input)).None? ==> messages == old(messages) && input == old(input)
      ensures Outgoing(old(input)).Some? ==>
        && messages == old(messages) + (if hasBody then [Message(Outgoing(old(input)).value, Sent, now)] else [])
        && input == []
      ensures header == old(header)
    {
      var text := Trim(input);
      if text == [] {
        return;
      }
      AppendMessage(text, Sent, None, now);
      input := [];
    }

    /** Opening a conversation: the header takes the trimmed name when both
        exist, and the message list is replaced by the trimmed snippet as one
        received message stamped with the conversation's time or `now`. */
    method OpenConversation(name: Option<string>, snippet: Option<string>, time: Option<string>, now: string)
      modifies this
      ensures hasHeader && name.Some? ==> header == Trim(name.value)
      ensures !hasHeader || name.None? ==> header == old(header)
      ensures messages == if hasBody then [Message(Trim(snippet.GetOr([])), Received, OrElse(time, now))] else old(messages)
      ensures input == old(input)
    {
      var first := Message(Trim(snippet.GetOr([])), Received, OrElse(time, now));
      if hasBody {
        messages := [first];
      }
      if hasHeader && name.Some? {
        header := Trim(name.value);
      }
    }
  }
}
