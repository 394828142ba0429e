/** Two pieces of the user interface with logic of their own: the terminal
    log, a first-in first-out buffer of at most 500 entries kept twice (in
    the log's own list and in the column that displays it), and the URLs
    typed or pasted into the drop zone. */
module Components {
  import opened Wrappers
  import opened Text

  // ---------------------------------------------------------------------------
  // The terminal log

  /** The log keeps at most this many entries. */
  const MaxLogEntries := 500

  /** The colours `add_log` picks from. */
  datatype Color = TextSecondary | SuccessColor | ErrorColor | WarningColor | Primary

  /** The colour of a status; an unknown status is shown like "info". */
  function StatusColor(status: string): (c: Color)
    ensures c == TextSecondary <==> status != "success" && status != "error" && status != "warning" && status != "ai"
    ensures status == "info" ==> c == TextSecondary
    ensures status == "success" <==> c == SuccessColor
    ensures status == "error" <==> c == ErrorColor
    ensures status == "warning" <==> c == WarningColor
    ensures status == "ai" <==> c == Primary
  {
    if status == "success" then SuccessColor
    else if status == "error" then ErrorColor
    else if status == "warning" then WarningColor
    else if status == "ai" then Primary
    else TextSecondary
  }

  /** One row of the log: its time stamp and its coloured line. */
  datatype LogEntry = LogEntry(stamp: string, line: string, color: Color)

  /** The row `add_log` builds. */
  function MakeEntry(message: string, status: string, prefix: string, time: string): LogEntry
  {
    LogEntry("[" + time + "]", prefix + " " + message, StatusColor(status))
  }

  /** `list.remove(e)`: drops the first element equal to `e`. */
  function RemoveFirst<T(==)>(xs: seq<T>, e: T): (r: seq<T>)
    requires e in xs
    ensures |r| == |xs| - 1
  {
    if xs[0] == e then xs[1..] else [xs[0]] + RemoveFirst(xs[1..], e)
  }

  /** Removing the element at the front is dropping the front. */
  lemma RemoveFirstHead<T>(xs: seq<T>)
    requires xs != []
    ensures RemoveFirst(xs, xs[0]) == xs[1..]
  {
  }

  /** Removing keeps every other element, in order: the result is `xs`
      without position `k`, the first position holding `e`. */
  lemma {:induction false} RemoveFirstSpec<T>(xs: seq<T>, e: T, k: nat)
    requires k < |xs| && xs[k] == e && e !in xs[..k]
    ensures RemoveFirst(xs, e) == xs[..k] + xs[k + 1..]
  {
    if k > 0 {
      var ys := xs[1..];
      assert xs[0] in xs[..k];
      assert ys[..k - 1] == xs[1..k];
      assert e !in ys[..k - 1];
      RemoveFirstSpec(ys, e, k - 1);
      AppendAssoc([xs[0]], ys[..k - 1], ys[k..]);
      assert xs[..k] == [xs[0]] + ys[..k - 1];
      assert xs[k + 1..] == ys[k..];
    }
  }

  /** The entries after appending one: the oldest goes once there are more
      than 500. */
  function Bounded(entries: seq<LogEntry>): seq<LogEntry>
  {
    if |entries| > MaxLogEntries then entries[1..] else entries
  }

  /** Appending to a full-or-less log keeps it within 500 entries, keeps the
      new entry last, and drops at most the oldest entry, keeping the order
      of the rest. */
  lemma BoundedSpec(entries: seq<LogEntry>, e: LogEntry)
    requires |entries| <= MaxLogEntries
    ensures var r := Bounded(entries + [e]);
      && |r| <= MaxLogEntries && r != [] && r[|r| - 1] == e
      && (|entries| < MaxLogEntries ==> r == entries + [e])
      && (|entries| == MaxLogEntries ==> r == entries[1..] + [e])
  {
    if |entries| == MaxLogEntries {
      assert (entries + [e])[1..] == entries[1..] + [e];
    }
  }

  /** `TerminalLog`: the log's entry list and the display column's controls. */
  class TerminalLog {
    var entries: seq<LogEntry>
    var controls: seq<LogEntry>

    /** The two lists hold the same entries, at most 500 of them. */
    predicate Valid()
      reads this
    {
      entries == controls && |entries| <= MaxLogEntries
    }

    /** `TerminalLog()`: both lists start empty. */
    constructor()
      ensures Valid() && entries == [] && controls == []
    {
      entries := [];
      controls := [];
    }

    /** `add_log`: appends the new row to both lists, then, past 500 rows,
        pops the oldest from the entry list and removes that same row from
        the column. */
    method AddLog(message: string, status: string, prefix: string, time: string)
      requires Valid()
      modifies this
      ensures Valid()
      ensures entries == Bounded(old(entries) + [MakeEntry(message, status, prefix, time)])
    {
      var entry := MakeEntry(message, status, prefix, time);
      entries := entries + [entry];
      controls := controls + [entry];
      if |entries| > MaxLogEntries {
        var removed := entries[0];
        entries := entries[1..];
        RemoveFirstHead(controls);
        controls := RemoveFirst(controls, removed);
      }
    }

    /** `clear`: empties both lists. */
    method Clear()
      modifies this
      ensures Valid() && entries == [] && controls == []
    {
      entries := [];
      controls := [];
    }
  }

  // ---------------------------------------------------------------------------
  // URLs typed into the drop zone

  /** The stripped lines that are not blank, in order. */
  function StrippedNonBlank(lines: seq<string>): seq<string>
  {
    if lines == [] then []
    else (if Strip(lines[0]) != "" then [Strip(lines[0])] else []) + StrippedNonBlank(lines[1..])
  }

  /** `get_urls`: the text (none counts as empty) is stripped and split on
      newlines, and each line stripped; blank lines are left out. */
  function GetUrls(value: Option<string>): seq<string>
  {
    var text := if value.Some? then value.value else "";
    StrippedNonBlank(Split(Strip(text), '\n'))
  }

  /** A stripped string that is not empty has no whitespace at either end,
      and stripping it again changes nothing. */
  lemma StripClean(l: string)
    ensures var u := Strip(l);
      u != "" ==> !IsSpace(u[0]) && !IsSpace(u[|u| - 1]) && Strip(u) == u
  {
    TrimSpec(l, IsSpace);
  }

  /** The URLs are exactly the stripped non-blank lines. */
  lemma {:induction false} StrippedNonBlankMembers(lines: seq<string>)
    ensures forall u :: u in StrippedNonBlank(lines) <==> exists l :: l in lines && Strip(l) == u && u != ""
  {
    if lines != [] {
      StrippedNonBlankMembers(lines[1..]);
      assert forall l :: l in lines <==> l == lines[0] || l in lines[1..];
    }
  }

  /** Every URL is non-empty, has no whitespace at either end and is its
      own strip, and the URLs are exactly the stripped non-blank lines. */
  lemma StrippedNonBlankSpec(lines: seq<string>)
    ensures var urls := StrippedNonBlank(lines);
      && (forall u :: u in urls ==> u != "" && !IsSpace(u[0]) && !IsSpace(u[|u| - 1]) && Strip(u) == u)
      && (forall u :: u in urls <==> exists l :: l in lines && Strip(l) == u && u != "")
  {
    StrippedNonBlankMembers(lines);
    forall u | u in StrippedNonBlank(lines)
      ensures u != "" && !IsSpace(u[0]) && !IsSpace(u[|u| - 1]) && Strip(u) == u
    {
      var l :| l in lines && Strip(l) == u && u != "";
      StripClean(l);
    }
  }
}
