/** What the three status-tree examples share: the table of status codes, the
    status record a selection yields and the line it is printed as, and the
    window that fills its widget when it is first shown. */
module StatusCommon {
  import opened PyCore
  import opened Qt

  /** `STATUS_NAMES`: status code to the text shown for it. */
  const StatusNames: map<string, string> := map[
    "rdy" := "Ready to Start", "omt" := "Omitted", "wip" := "In Progress", "fin" := "Final"]

  /** `STATUS_COLORS`: status code to the brush colour of its row. */
  const StatusColors: map<string, GlobalColor> := map[
    "rdy" := White, "omt" := DarkGray, "wip" := Yellow, "fin" := Green]

  /** Both tables cover the same four codes, so a code that has a colour also
      has a name. */
  lemma StatusTablesAgree()
    ensures StatusNames.Keys == StatusColors.Keys == {"rdy", "omt", "wip", "fin"}
  {
  }

  /** One of the four status codes. */
  predicate Known(code: string) { code == "rdy" || code == "omt" || code == "wip" || code == "fin" }

  /** The known codes are exactly the ones the colour lookup
      `STATUS_COLORS[status]` accepts, and exactly the ones with a name. */
  lemma KnownCodes(code: string)
    ensures Known(code) <==> code in StatusColors
    ensures Known(code) <==> code in StatusNames
  {
  }

  /** `STATUS_NAMES.get(status)` */
  function StatusName(code: string): (r: Option<string>)
    ensures r.Some? <==> Known(code)
  {
    if code in StatusNames then Some(StatusNames[code]) else None
  }

  /** The number of leading elements of `s` that satisfy `ok`: how far a loop
      that raises at the first element failing `ok` gets. */
  function PrefixWhile<T>(s: seq<T>, ok: T -> bool): (n: nat)
    ensures n <= |s|
    ensures forall i :: 0 <= i < n ==> ok(s[i])
    ensures n < |s| ==> !ok(s[n])
    ensures n == |s| <==> forall i :: 0 <= i < |s| ==> ok(s[i])
  {
    if s == [] || !ok(s[0]) then 0 else 1 + PrefixWhile(s[1..], ok)
  }

  /** A loop that got through the first `n` elements and stops at the `n`th
      (or at the end) got exactly `PrefixWhile(s, ok)` far. */
  lemma PrefixWhileIs<T>(s: seq<T>, ok: T -> bool, n: nat)
    requires n <= |s| && forall k :: 0 <= k < n ==> ok(s[k])
    requires n < |s| ==> !ok(s[n])
    ensures PrefixWhile(s, ok) == n
  {
  }

  /** A loop that is still within the leading run of elements satisfying
      `ok` either stays within it past the next element, or has reached its
      end at an element that fails. */
  lemma PrefixWhileStep<T>(s: seq<T>, ok: T -> bool, i: nat)
    requires i < |s| && i <= PrefixWhile(s, ok)
    ensures ok(s[i]) ==> i + 1 <= PrefixWhile(s, ok)
    ensures !ok(s[i]) ==> PrefixWhile(s, ok) == i
  {
  }

  /** `ItemStatus = namedtuple('ItemStatus', 'parent child status')`. The status
      is whatever data the status cell holds, `None` when it holds none. */
  datatype ItemStatus = ItemStatus(parent: string, child: string, status: Option<string>)

  /** `'{}'.format(status)`: the text itself, or `None` spelled out. */
  function StatusText(status: Option<string>): string
  {
    match status
    case None => "None"
    case Some(s) => s
  }

  /** The line `'{parent}:{child} ({status})'` for three pieces of text. */
  function FormatLine(parent: string, child: string, status: string): (line: string)
    ensures |line| == |parent| + |child| + |status| + 4
    ensures line[|parent|] == ':' && line[|line| - 1] == ')'
  {
    parent + ":" + child + " (" + status + ")"
  }

  /** `print_item_status(item_status)`: the line it prints. */
  function FormatItemStatus(s: ItemStatus): string
  {
    FormatLine(s.parent, s.child, StatusText(s.status))
  }

  /** Where the pieces of a printed line sit. */
  lemma FormatLineAt(parent: string, child: string, status: string)
    ensures forall k :: 0 <= k < |parent| ==> FormatLine(parent, child, status)[k] == parent[k]
    ensures forall k :: 0 <= k < |child| ==> FormatLine(parent, child, status)[|parent| + 1 + k] == child[k]
    ensures FormatLine(parent, child, status)[|parent| + |child| + 2] == '('
    ensures forall k :: 0 <= k < |status| ==>
      FormatLine(parent, child, status)[|parent| + |child| + 3 + k] == status[k]
  {
    assert FormatLine(parent, child, status) == parent + ":" + child + " (" + status + ")";
  }

  /** A printed line determines the record it was printed from, as long as
      parents have no ':' and status texts have no '(': two records that
      print the same line are the same record. */
  lemma {:induction false} PrintedLineDetermines(parent: string, child: string, status: string,
                                                 parent': string, child': string, status': string)
    requires ':' !in parent && ':' !in parent' && '(' !in status && '(' !in status'
    requires FormatLine(parent, child, status) == FormatLine(parent', child', status')
    ensures parent == parent' && child == child' && status == status'
  {
    var line := FormatLine(parent, child, status);
    FormatLineAt(parent, child, status);
    FormatLineAt(parent', child', status');
    if |parent| < |parent'| {
      assert false;
    } else if |parent'| < |parent| {
      assert false;
    }
    if |status| < |status'| {
      assert false;
    } else if |status'| < |status| {
      assert false;
    }
    assert |child| == |child'|;
    assert parent == parent';
    assert child == child';
    assert status == status';
  }

  /** `StatusWindow`: fills its widget the first time it is shown. */
  class StatusWindow {
    var openedOnce: bool

    constructor ()
      ensures !openedOnce
    {
      openedOnce := false;
    }

    /** `showEvent`: the flag is set before the widget's refresh runs, so a
        refresh that raises (its outcome is `refresh`) is not retried by a
        later show. */
    method ShowEvent(refresh: Outcome) returns (refreshed: bool, r: Outcome)
      modifies this
      ensures refreshed <==> !old(openedOnce)
      ensures openedOnce
      ensures r == if refreshed then refresh else Pass
    {
      refreshed := !openedOnce;
      r := Pass;
      if refreshed {
        openedOnce := true;
        r := refresh;
      }
    }
  }

  /** A new window shown twice refreshes on the first show only, whether or
      not that refresh raised. */
  method ShowTwice(refresh: Outcome) returns (first: Outcome, again: bool)
    ensures first == refresh && !again
  {
    var window := new StatusWindow();
    var refreshed, second;
    refreshed, first := window.ShowEvent(refresh);
    again, second := window.ShowEvent(refresh);
  }
}
