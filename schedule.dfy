/** The timetable: the schedule parsed once from the embedded payload, the
    conjunctive filter driven by the form, and the renderer that replaces the
    results container's children (assets/js/main.js:157-211). */
module Schedule {
  import opened Wrappers
  import opened Sequences

  /** One class session of the payload. `kind` is the entry's `type` field. */
  datatype Entry = Entry(
    id: string,
    className: string,
    datetime: string,
    instructor: string,
    kind: string,
    energy: string,
    energyLabel: string)

  /** The filter form's three values; an empty string means "any". */
  datatype Criteria = Criteria(kind: string, instructor: string, date: string)

  /** One result row: the fields the markup shows and the `data-book-class`
      identifier of its Book link. `when` is the localized date and time. */
  datatype Row = Row(
    id: string,
    className: string,
    when: string,
    instructor: string,
    energy: string,
    energyLabel: string)

  /** A child of the results container. */
  datatype Node = Message(text: string) | RowNode(row: Row)

  const NoMatchText := "No classes match your filters. Try a wider date range."

  /** `qs(control)?.value || ''` for each control; a missing control reads as "". */
  function ReadCriteria(typeControl: Option<string>, instructorControl: Option<string>,
                        dateControl: Option<string>): Criteria
  {
    Criteria(typeControl.GetOr(""), instructorControl.GetOr(""), dateControl.GetOr(""))
  }

  /** The predicate passed to `schedule.filter`. `dateKey` stands for
      `new Date(d).toISOString().slice(0, 10)`, the UTC calendar date. */
  predicate Matches(c: Criteria, dateKey: string -> string, e: Entry) {
    (c.kind == "" || e.kind == c.kind) &&
    (c.instructor == "" || e.instructor == c.instructor) &&
    (c.date == "" || dateKey(e.datetime) == c.date)
  }

  /** `schedule.filter(...)`: the matching entries, in schedule order. */
  function Filtered(schedule: seq<Entry>, c: Criteria, dateKey: string -> string): (r: seq<Entry>)
    ensures |r| <= |schedule|
    ensures forall e :: e in r ==> e in schedule && Matches(c, dateKey, e)
    ensures forall e :: e in schedule && Matches(c, dateKey, e) ==> e in r
    decreases |schedule|
  {
    if schedule == [] then []
    else
      var init := Filtered(schedule[..|schedule| - 1], c, dateKey);
      var last := schedule[|schedule| - 1];
      if Matches(c, dateKey, last) then init + [last] else init
  }

  /** The positions are those of matching entries, ascending. */
  function MatchPositions(schedule: seq<Entry>, c: Criteria, dateKey: string -> string): (p: seq<nat>)
    ensures forall j :: 0 <= j < |p| ==> p[j] < |schedule|
    ensures forall j, k :: 0 <= j < k < |p| ==> p[j] < p[k]
    ensures forall i :: 0 <= i < |schedule| ==> (i in p <==> Matches(c, dateKey, schedule[i]))
    decreases |schedule|
  {
    if schedule == [] then []
    else
      var n := |schedule| - 1;
      var init := MatchPositions(schedule[..n], c, dateKey);
      assert forall i :: 0 <= i < n ==> schedule[..n][i] == schedule[i];
      if Matches(c, dateKey, schedule[n]) then init + [n] else init
  }

  /** The filter result is the subsequence of the schedule taken at exactly
      the matching positions (MatchPositions): nothing reordered, nothing
      repeated, nothing dropped. */
  lemma {:induction false} FilteredIsMatchingSubsequence(schedule: seq<Entry>, c: Criteria, dateKey: string -> string)
    ensures SubsequenceAt(Filtered(schedule, c, dateKey), schedule, MatchPositions(schedule, c, dateKey))
    decreases |schedule|
  {
    if schedule != [] {
      var n := |schedule| - 1;
      var init := schedule[..n];
      FilteredIsMatchingSubsequence(init, c, dateKey);
      var r0, p0 := Filtered(init, c, dateKey), MatchPositions(init, c, dateKey);
      var r, p := Filtered(schedule, c, dateKey), MatchPositions(schedule, c, dateKey);
      assert SubsequenceAt(r0, init, p0);
      if Matches(c, dateKey, schedule[n]) {
        assert r == r0 + [schedule[n]] && p == p0 + [n];
        forall j | 0 <= j < |p| ensures p[j] < |schedule| && r[j] == schedule[p[j]] {
          if j < |p0| {
            assert r[j] == r0[j] == init[p0[j]];
          }
        }
      } else {
        assert r == r0 && p == p0;
        forall j | 0 <= j < |p| ensures p[j] < |schedule| && r[j] == schedule[p[j]] {
          assert r[j] == init[p0[j]];
        }
      }
    }
  }

  /** With every criterion unset the filter keeps the whole schedule. */
  lemma {:induction false} UnsetCriteriaKeepAll(schedule: seq<Entry>, dateKey: string -> string)
    ensures Filtered(schedule, Criteria("", "", ""), dateKey) == schedule
    decreases |schedule|
  {
    if schedule != [] {
      var n := |schedule| - 1;
      UnsetCriteriaKeepAll(schedule[..n], dateKey);
      assert schedule[..n] + [schedule[n]] == schedule;
    }
  }

  /** `JSON.parse(scheduleScript?.textContent || '[]')` inside its try/catch.
      `payload` is the script's text, None when the script element is
      missing; `parse` stands for `JSON.parse`, None for a SyntaxError. */
  function ParseSchedule(payload: Option<string>, parse: string -> Option<seq<Entry>>): (schedule: seq<Entry>)
    ensures payload.Some? && payload.value != "" ==>
      schedule == (if parse(payload.value).Some? then parse(payload.value).value else [])
    ensures payload.None? || payload.value == "" ==> schedule == parse("[]").GetOr([])
  {
    var text := payload.GetOr("");
    match parse(if text == "" then "[]" else text)
    case None => []
    case Some(list) => list
  }

  /** A missing or empty payload is read as the text `[]`, hence no entries. */
  lemma MissingPayloadIsEmpty(payload: Option<string>, parse: string -> Option<seq<Entry>>)
    requires payload.None? || payload == Some("")
    requires parse("[]") == Some([])
    ensures ParseSchedule(payload, parse) == []
  {
  }

  /** The row built for one entry; `formatTime` stands for
      `new Date(d).toLocaleString(...)`. */
  function RowOf(e: Entry, formatTime: string -> string): Row {
    Row(e.id, e.className, formatTime(e.datetime), e.instructor, e.energy, e.energyLabel)
  }

  /** The children `render(list)` leaves in the results container: the one
      message when the list is empty, otherwise one row per entry, in order,
      each carrying its entry's id. */
  function RenderedView(list: seq<Entry>, formatTime: string -> string): (nodes: seq<Node>)
    ensures Message(NoMatchText) in nodes <==> list == []
    ensures list == [] ==> |nodes| == 1
    ensures list != [] ==> |nodes| == |list|
    ensures forall j :: 0 <= j < |list| ==>
      nodes[j].RowNode? && nodes[j].row.id == list[j].id && nodes[j].row == RowOf(list[j], formatTime)
  {
    if list == [] then [Message(NoMatchText)]
    else seq(|list|, j requires 0 <= j < |list| => RowNode(RowOf(list[j], formatTime)))
  }

  /** The number of rows shown equals the number of matching entries, and
      the message is shown exactly when none matches. */
  lemma RenderedCountsMatches(schedule: seq<Entry>, c: Criteria, dateKey: string -> string,
                              formatTime: string -> string)
    ensures var nodes := RenderedView(Filtered(schedule, c, dateKey), formatTime);
      (Message(NoMatchText) in nodes <==> forall i :: 0 <= i < |schedule| ==> !Matches(c, dateKey, schedule[i])) &&
      (Message(NoMatchText) !in nodes ==> |nodes| == |MatchPositions(schedule, c, dateKey)|)
  {
    FilteredIsMatchingSubsequence(schedule, c, dateKey);
    var r := Filtered(schedule, c, dateKey);
    if r != [] {
      assert Matches(c, dateKey, r[0]);
    } else {
      forall i | 0 <= i < |schedule| ensures !Matches(c, dateKey, schedule[i]) {
        assert schedule[i] in schedule;
      }
    }
  }

  /** A payload that does not parse still renders the message, whatever the
      criteria. */
  lemma MalformedPayloadShowsMessage(text: string, parse: string -> Option<seq<Entry>>, c: Criteria,
                                     dateKey: string -> string, formatTime: string -> string)
    requires text != "" && parse(text).None?
    ensures RenderedView(Filtered(ParseSchedule(Some(text), parse), c, dateKey), formatTime) == [Message(NoMatchText)]
  {
  }

  /** The `list.forEach` loop of `render`, appending one row per entry to the
      document fragment. */
  method BuildFragment(list: seq<Entry>, formatTime: string -> string) returns (frag: seq<Node>)
    ensures |frag| == |list|
    ensures forall j :: 0 <= j < |list| ==> frag[j] == RowNode(RowOf(list[j], formatTime))
  {
    frag := [];
    for i := 0 to |list|
      invariant |frag| == i
      invariant forall j :: 0 <= j < i ==> frag[j] == RowNode(RowOf(list[j], formatTime))
    {
      frag := frag + [RowNode(RowOf(list[i], formatTime))];
    }
  }

  /** The `#timetable-app` block: the schedule, fixed at load, and the
      `#timetable-results` container when the page has one. */
  class Timetable {
    const schedule: seq<Entry>
    const dateKey: string -> string
    const formatTime: string -> string
    /** The container's children, None when there is no container. */
    var results: Option<seq<Node>>

    /** Parse the payload, then `render(schedule)`. */
    constructor (payload: Option<string>, parse: string -> Option<seq<Entry>>,
                 container: Option<seq<Node>>, dateKey: string -> string, formatTime: string -> string)
      ensures schedule == ParseSchedule(payload, parse)
      ensures this.dateKey == dateKey && this.formatTime == formatTime
      ensures results == if container.None? then None else Some(RenderedView(schedule, formatTime))
    {
      schedule := ParseSchedule(payload, parse);
      this.dateKey := dateKey;
      this.formatTime := formatTime;
      results := container;
      new;
      Render(schedule);
    }

    /** `render(list)`: without a container nothing happens; otherwise the old
        children are discarded and the view of `list` put in their place, so
        rendering the same list twice gives the same children. */
    method Render(list: seq<Entry>)
      modifies this
      ensures results == if old(results).None? then None else Some(RenderedView(list, formatTime))
    {
      if results.None? {
        return;
      }
      results := Some([]);
      if |list| == 0 {
        results := Some([Message(NoMatchText)]);
        return;
      }
      var frag := BuildFragment(list, formatTime);
      assert results.value + frag == RenderedView(list, formatTime);
      results := Some(results.value + frag);
    }

    /** `applyFilters`, the form's input handler, given the three controls'
        values (None for a missing control). */
    method ApplyFilters(typeControl: Option<string>, instructorControl: Option<string>,
                        dateControl: Option<string>)
      modifies this
      ensures results == if old(results).None? then None
        else Some(RenderedView(Filtered(schedule, ReadCriteria(typeControl, instructorControl, dateControl), dateKey), formatTime))
    {
      var criteria := ReadCriteria(typeControl, instructorControl, dateControl);
      var filtered := Filtered(schedule, criteria, dateKey);
      Render(filtered);
    }
  }
}
