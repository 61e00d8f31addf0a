/**
 * webui/script.js: the browser client's pure helpers (HTML escaping, prompt
 * composition, the memory choice) and its chat history kept in `localStorage`
 * with a seven-day lifetime.
 */
module WebUi {
  import opened Wrappers
  import opened Strings

  /** The replacement `escapeHtml` gives a character: one of five entities, or the character itself. */
  function EscapeChar(c: char): string {
    match c
    case '&' => "&amp;"
    case '<' => "&lt;"
    case '>' => "&gt;"
    case '"' => "&quot;"
    case '\'' => "&#039;"
    case _ => [c]
  }

  /** `escapeHtml`: every character replaced as `EscapeChar` says, left to right. */
  function EscapeHtml(s: string): (r: string)
    ensures |r| >= |s|
    decreases |s|
  {
    if s == [] then [] else EscapeChar(s[0]) + EscapeHtml(s[1..])
  }

  predicate Special(c: char) {
    c == '&' || c == '<' || c == '>' || c == '"' || c == '\''
  }

  /** The output holds no `<`, `>`, `"` or `'`: it cannot open a tag or close an attribute. */
  lemma {:induction false} EscapeHtmlSafe(s: string)
    ensures forall k :: 0 <= k < |EscapeHtml(s)| ==> !(Special(EscapeHtml(s)[k]) && EscapeHtml(s)[k] != '&')
    decreases |s|
  {
    if s != [] {
      EscapeHtmlSafe(s[1..]);
      var head := EscapeChar(s[0]);
      var tail := EscapeHtml(s[1..]);
      forall k | 0 <= k < |head + tail|
        ensures !(Special((head + tail)[k]) && (head + tail)[k] != '&')
      {
        if k >= |head| {
          assert (head + tail)[k] == tail[k - |head|];
        }
      }
    }
  }

  /** Text with none of the five characters is left as it is. */
  lemma {:induction false} EscapeHtmlPlain(s: string)
    requires forall k :: 0 <= k < |s| ==> !Special(s[k])
    ensures EscapeHtml(s) == s
    decreases |s|
  {
    if s != [] {
      EscapeHtmlPlain(s[1..]);
    }
  }

  /** The entity `s` starts with, if any: the character it stands for and its length. */
  function Entity(s: string): (r: Option<(char, nat)>)
    ensures r.Some? ==> 0 < r.value.1 <= |s|
  {
    if StartsWith(s, "&amp;") then Some(('&', 5))
    else if StartsWith(s, "&lt;") then Some(('<', 4))
    else if StartsWith(s, "&gt;") then Some(('>', 4))
    else if StartsWith(s, "&quot;") then Some(('"', 6))
    else if StartsWith(s, "&#039;") then Some(('\'', 6))
    else None
  }

  /** Decoding the five entities; any other character stands for itself. */
  function UnescapeHtml(s: string): string
    decreases |s|
  {
    if s == [] then []
    else match Entity(s)
      case Some((c, n)) => [c] + UnescapeHtml(s[n..])
      case None => [s[0]] + UnescapeHtml(s[1..])
  }

  /** A text that does not start with `&` starts with no entity. */
  lemma EntityPlain(s: string)
    requires s != [] && s[0] != '&'
    ensures Entity(s).None?
  {
    assert forall k :: 0 < k <= |s| ==> s[..k][0] == s[0];
  }

  /** An entity followed by anything is recognised with its own length. */
  lemma EntityOfSpecial(c: char, rest: string)
    requires Special(c)
    ensures Entity(EscapeChar(c) + rest) == Some((c, |EscapeChar(c)|))
  {
    var e := EscapeChar(c);
    var s := e + rest;
    assert s[..|e|] == e;
    if c != '&' {
      assert s[1] != 'a' by {
        assert s[1] == e[1];
      }
    }
  }

  /** The replacement of one character decodes back to it, whatever follows. */
  lemma UnescapeHead(c: char, rest: string)
    ensures UnescapeHtml(EscapeChar(c) + rest) == [c] + UnescapeHtml(rest)
  {
    var e := EscapeChar(c);
    var s := e + rest;
    assert s[|e|..] == rest;
    if Special(c) {
      EntityOfSpecial(c, rest);
    } else {
      assert s[0] == c && s[1..] == rest;
      EntityPlain(s);
    }
  }

  /** Escaping loses nothing: the entities decode back to the original text. */
  lemma {:induction false} UnescapeEscape(s: string)
    ensures UnescapeHtml(EscapeHtml(s)) == s
    decreases |s|
  {
    if s != [] {
      UnescapeEscape(s[1..]);
      UnescapeHead(s[0], EscapeHtml(s[1..]));
    }
  }

  /** One chat message as stored: its time in milliseconds, its role and its text. */
  datatype Message = Message(ts: int, role: string, content: string)

  /** What `localStorage.getItem` and `JSON.parse` give for a key. */
  datatype Slot<T> = Absent | Corrupt | Stored(value: T)

  /** `lsGet`: the stored value, or the default when the key is absent or does not parse. */
  function LsGet<T>(slot: Slot<T>, def: T): (r: T)
    ensures slot.Stored? ==> r == slot.value
    ensures !slot.Stored? ==> r == def
  {
    match slot
    case Stored(v) => v
    case _ => def
  }

  /** `TTL_DAYS*24*3600*1000`: seven days in milliseconds. */
  const TtlMs: int := 7 * 24 * 3600 * 1000

  predicate IsFresh(m: Message, now: int) {
    now - m.ts < TtlMs
  }

  /** `all.filter(x => (now - x.ts) < TTL)`. */
  function Fresh(all: seq<Message>, now: int): (r: seq<Message>)
    ensures |r| <= |all|
    decreases |all|
  {
    if all == [] then []
    else (if IsFresh(all[0], now) then [all[0]] else []) + Fresh(all[1..], now)
  }

  /**
   * The filter keeps exactly the messages younger than seven days, in their
   * order; it keeps the whole list exactly when none has expired.
   */
  lemma {:induction false} FreshSpec(all: seq<Message>, now: int)
    ensures forall m :: m in Fresh(all, now) <==> m in all && IsFresh(m, now)
    ensures |Fresh(all, now)| == |all| <==> forall m :: m in all ==> IsFresh(m, now)
    ensures (forall m :: m in all ==> IsFresh(m, now)) ==> Fresh(all, now) == all
    decreases |all|
  {
    if all != [] {
      FreshSpec(all[1..], now);
      assert forall m :: m in all <==> m == all[0] || m in all[1..];
      assert all == [all[0]] + all[1..];
    }
  }

  /** Filtering a list with a message added at its end filters the list and then the message. */
  lemma {:induction false} FreshSnoc(all: seq<Message>, m: Message, now: int)
    ensures Fresh(all + [m], now) == Fresh(all, now) + (if IsFresh(m, now) then [m] else [])
    decreases |all|
  {
    var s := all + [m];
    if all == [] {
      assert s == [m] && s[1..] == [];
    } else {
      var h := if IsFresh(all[0], now) then [all[0]] else [];
      assert s[0] == all[0] && s[1..] == all[1..] + [m];
      assert Fresh(s, now) == h + Fresh(all[1..] + [m], now);
      FreshSnoc(all[1..], m, now);
    }
  }

  /** A radio button of the memory choice. */
  datatype Radio = Radio(value: string, checked: bool)

  /** `currentMemory`: the value of the first checked radio, else "public". */
  function CurrentMemory(radios: seq<Radio>): string
    decreases |radios|
  {
    if radios == [] then "public"
    else if radios[0].checked then radios[0].value
    else CurrentMemory(radios[1..])
  }

  /** The choice is the first checked radio's value, or "public" when none is checked. */
  lemma {:induction false} CurrentMemorySpec(radios: seq<Radio>)
    ensures var r := CurrentMemory(radios);
      || (exists i :: (0 <= i < |radios| && radios[i].checked && r == radios[i].value
            && forall j :: 0 <= j < i ==> !radios[j].checked))
      || ((forall i :: 0 <= i < |radios| ==> !radios[i].checked) && r == "public")
    decreases |radios|
  {
    if radios != [] && !radios[0].checked {
      CurrentMemorySpec(radios[1..]);
      assert forall i :: 1 <= i < |radios| ==> radios[i] == radios[1..][i - 1];
      var r := CurrentMemory(radios);
      if exists i :: (0 <= i < |radios[1..]| && radios[1..][i].checked && r == radios[1..][i].value
          && forall j :: 0 <= j < i ==> !radios[1..][j].checked) {
        var i :| 0 <= i < |radios[1..]| && radios[1..][i].checked && r == radios[1..][i].value
          && forall j :: 0 <= j < i ==> !radios[1..][j].checked;
        assert radios[i + 1] == radios[1..][i];
        assert forall j :: 0 <= j < i + 1 ==> !radios[j].checked;
      }
    }
  }

  /** What `composePrompt` puts between the typed text and an attached file. */
  const AttachmentSeparator: string := "\n\n---\nPřiložený soubor (text):\n"

  /** The client's state: the chat history, its storage slot and the attached file's text. */
  class ChatUi {
    var history: seq<Message>
    var historySlot: Slot<seq<Message>>
    var attachedText: string

    /** `let history = loadHistory();` at start-up, with nothing attached. */
    constructor (slot: Slot<seq<Message>>, now: int)
      ensures history == Fresh(LsGet(slot, []), now) && attachedText == []
      ensures historySlot == (if |history| != |LsGet(slot, [])| then Stored(history) else slot)
    {
      historySlot := slot;
      attachedText := [];
      history := [];
      new;
      history := LoadHistory(now);
    }

    /**
     * `loadHistory`: the stored messages younger than seven days; the slot is
     * rewritten only when some message was dropped.
     */
    method LoadHistory(now: int) returns (kept: seq<Message>)
      modifies this`historySlot
      ensures kept == Fresh(LsGet(old(historySlot), []), now)
      ensures historySlot == (if |kept| != |LsGet(old(historySlot), [])| then Stored(kept) else old(historySlot))
    {
      var all := LsGet(historySlot, []);
      kept := Fresh(all, now);
      if |kept| != |all| {
        historySlot := Stored(kept);
      }
    }

    /** `pushHistory`: one message stamped `now` at the end, and the whole list stored. */
    method PushHistory(role: string, content: string, now: int)
      modifies this`history, this`historySlot
      ensures history == old(history) + [Message(now, role, content)]
      ensures LsGet(historySlot, []) == history
    {
      history := history + [Message(now, role, content)];
      historySlot := Stored(history);
    }

    /** `composePrompt`: the text alone, or followed by the separator and the attachment. */
    function ComposePrompt(text: string): (r: string)
      reads this
      ensures attachedText == [] ==> r == text
      ensures attachedText != [] ==> |r| == |text| + |AttachmentSeparator| + |attachedText|
    {
      if attachedText == [] then text else text + AttachmentSeparator + attachedText
    }

    /**
     * With an attachment the prompt starts with the text, continues with the
     * separator and ends with the attachment, so both parts can be read back.
     */
    lemma ComposePromptParts(text: string)
      requires attachedText != []
      ensures var r := ComposePrompt(text); var n := |text| + |AttachmentSeparator|;
        && r[..|text|] == text && r[|text|..n] == AttachmentSeparator && r[n..] == attachedText
    {
      var r := ComposePrompt(text);
      assert r == text + AttachmentSeparator + attachedText;
    }
  }

  /**
   * A message pushed at `now` survives the next load until seven days have
   * passed, and it comes last.
   */
  lemma PushThenLoad(history: seq<Message>, m: Message, later: int)
    requires later - m.ts < TtlMs
    ensures Fresh(history + [m], later) == Fresh(history, later) + [m]
  {
    FreshSnoc(history, m, later);
  }
}
