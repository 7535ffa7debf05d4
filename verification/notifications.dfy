/**
 * The notifications inbox: relative timestamps, the severity icon and badge, the query each
 * tab sends, and the read and saved updates it requests.
 */
module Notifications {
  import opened Wrappers
  import opened Text
  import opened Seqs
  import opened Arith
  import opened Pagination

  /* ---------------- relative time ---------------- */

  const MsPerMinute: int := 60000

  /** What `timeAgo` shows; `Older` stands for the locale date string, which is not modelled. */
  datatype Ago = JustNow | MinutesAgo(minutes: nat) | HoursAgo(hours: nat) | DaysAgo(days: nat) | Older

  /**
   * `timeAgo` as a function of `now - created` in milliseconds. Minutes, hours and days are
   * successive floor divisions; a future date gives a negative difference and reads "just now".
   */
  function TimeAgo(diff: int): (a: Ago)
    ensures a.JustNow? <==> diff < 60000
    ensures a.MinutesAgo? ==> 1 <= a.minutes < 60
    ensures a.HoursAgo? ==> 1 <= a.hours < 24
    ensures a.DaysAgo? ==> 1 <= a.days < 30
  {
    var minutes := diff / MsPerMinute;
    if minutes < 1 then JustNow
    else if minutes < 60 then MinutesAgo(minutes)
    else
      var hours := minutes / 60;
      if hours < 24 then HoursAgo(hours)
      else
        var days := hours / 24;
        if days < 30 then DaysAgo(days) else Older
  }

  /** The text shown, given the locale date string for the `Older` case. */
  function AgoText(a: Ago, dateText: string): (text: string)
    ensures a.JustNow? ==> text == "just now"
    ensures a.Older? ==> text == dateText
    ensures a.MinutesAgo? ==> CountThen(text, " ago", 'm', a.minutes)
    ensures a.HoursAgo? ==> CountThen(text, " ago", 'h', a.hours)
    ensures a.DaysAgo? ==> CountThen(text, " ago", 'd', a.days)
  {
    match a
    case JustNow => "just now"
    case MinutesAgo(m) => CountText(m, 'm')
    case HoursAgo(h) => CountText(h, 'h')
    case DaysAgo(d) => CountText(d, 'd')
    case Older => dateText
  }

  /**
   * `text` is a decimal count followed by a one-letter unit and `tail`, and the digits read
   * back as `n`.
   */
  predicate CountThen(text: string, tail: string, unit: char, n: nat) {
    && |text| > |tail| + 1
    && EndsWith(text, [unit] + tail)
    && (forall i :: 0 <= i < |text| - |tail| - 1 ==> IsDigit(text[i]))
    && ParseDigits(text[..|text| - |tail| - 1]) == n
  }

  /** `${n}<unit> ago`. */
  function CountText(n: nat, unit: char): (text: string)
    ensures CountThen(text, " ago", unit, n)
  {
    var digits := NatToString(n);
    var text := digits + [unit] + " ago";
    assert text[..|text| - 5] == digits;
    assert text[|text| - 5..] == [unit] + " ago";
    ParseNatToString(n);
    text
  }

  /** Each bucket covers exactly the whole minutes, hours or days it names. */
  lemma TimeAgoBuckets(diff: int)
    ensures TimeAgo(diff).MinutesAgo? <==> 60000 <= diff < 3600000
    ensures TimeAgo(diff).MinutesAgo? ==>
              60000 * TimeAgo(diff).minutes <= diff < 60000 * (TimeAgo(diff).minutes + 1)
    ensures TimeAgo(diff).HoursAgo? <==> 3600000 <= diff < 86400000
    ensures TimeAgo(diff).HoursAgo? ==>
              3600000 * TimeAgo(diff).hours <= diff < 3600000 * (TimeAgo(diff).hours + 1)
    ensures TimeAgo(diff).DaysAgo? <==> 86400000 <= diff < 2592000000
    ensures TimeAgo(diff).DaysAgo? ==>
              86400000 * TimeAgo(diff).days <= diff < 86400000 * (TimeAgo(diff).days + 1)
    ensures TimeAgo(diff).Older? <==> diff >= 2592000000
  {
    NestedFloor(diff, 60000, 60);
    NestedFloor(diff, 3600000, 24);
    assert diff / 60000 / 60 / 24 == diff / 86400000;
  }

  /** An ordering key: how many whole minutes the shown text stands for. */
  function AgoMinutes(a: Ago): int {
    match a
    case JustNow => 0
    case MinutesAgo(m) => m
    case HoursAgo(h) => 60 * h
    case DaysAgo(d) => 1440 * d
    case Older => 43200
  }

  /** An older notification never shows a more recent time than a newer one. */
  lemma TimeAgoMonotone(d1: int, d2: int)
    requires d1 <= d2
    ensures AgoMinutes(TimeAgo(d1)) <= AgoMinutes(TimeAgo(d2))
  {
    TimeAgoBuckets(d1);
    TimeAgoBuckets(d2);
    DivMono(d1, d2, 60000);
    DivMono(d1, d2, 3600000);
    DivMono(d1, d2, 86400000);
    NestedFloor(d1, 60000, 60);
    NestedFloor(d2, 60000, 60);
    NestedFloor(d1, 3600000, 24);
    NestedFloor(d2, 3600000, 24);
    assert d1 / 60000 / 60 / 24 == d1 / 86400000;
    assert d2 / 60000 / 60 / 24 == d2 / 86400000;
    DivMono(60 * (d1 / 3600000), d2 / 60000, 1);
    MulMono(d1 / 3600000, d2 / 60000 / 60, 60);
    MulMono(d1 / 86400000, d2 / 3600000 / 24, 24);
  }

  /** Different minute counts always read differently. */
  lemma MinutesTextInjective(m: nat, n: nat)
    requires AgoText(MinutesAgo(m), "") == AgoText(MinutesAgo(n), "")
    ensures m == n
  {
    var sm, sn := NatToString(m), NatToString(n);
    assert sm == (sm + "m ago")[..|sm + "m ago"| - 5];
    assert sn == (sn + "m ago")[..|sn + "m ago"| - 5];
    NatToStringInjective(m, n);
  }

  /* ---------------- severity ---------------- */

  datatype Severity = Critical | High | Normal | Low

  datatype Icon = ShieldAlert | AlertTriangle | InfoIcon | Bell

  /** `severityIcon`: an icon for critical, high and low; nothing otherwise. */
  function SeverityIcon(s: Option<Severity>): (icon: Option<Icon>)
    ensures icon.Some? ==> icon.value != Bell
  {
    match s
    case Some(Critical) => Some(ShieldAlert)
    case Some(High) => Some(AlertTriangle)
    case Some(Low) => Some(InfoIcon)
    case _ => None
  }

  function SeverityName(s: Severity): string {
    match s
    case Critical => "critical"
    case High => "high"
    case Normal => "normal"
    case Low => "low"
  }

  /** `severityBadge`: nothing for a missing or normal severity, else a badge naming it. */
  function SeverityBadge(s: Option<Severity>): (badge: Option<string>)
    ensures badge.Some? ==> s.Some? && badge.value == SeverityName(s.value)
  {
    if s.None? || s.value == Normal then None else Some(SeverityName(s.value))
  }

  /** The row icon: the severity icon, or the bell when there is none. */
  function RowIcon(s: Option<Severity>): Icon {
    SeverityIcon(s).GetOr(Bell)
  }

  /** The icon and the badge agree: both appear exactly for critical, high and low. */
  lemma IconIffBadge(s: Option<Severity>)
    ensures SeverityIcon(s).Some? <==> SeverityBadge(s).Some?
    ensures SeverityBadge(s).None? <==> (s.None? || s.value == Normal)
    ensures RowIcon(s) == Bell <==> SeverityBadge(s).None?
  {
  }

  /** Badge texts name their severities one-to-one. */
  lemma SeverityNameInjective(a: Severity, b: Severity)
    requires SeverityName(a) == SeverityName(b)
    ensures a == b
  {
  }

  /** Critical, high and low each get their own icon. */
  lemma SeverityIconInjective(a: Option<Severity>, b: Option<Severity>)
    requires SeverityIcon(a).Some? && SeverityIcon(a) == SeverityIcon(b)
    ensures a == b
  {
  }

  /* ---------------- tabs and queries ---------------- */

  datatype Tab = Unread | All | Saved

  /** The options of `getNotifications`; `read` and `saved` are set only by their tabs. */
  datatype Options = Options(limit: nat, offset: nat, sortField: string, descending: bool,
                             read: Option<bool>, saved: Option<bool>)

  function TabOptions(tab: Tab, offset: nat): (o: Options)
    ensures o.limit == ListPageSize && o.offset == offset && o.sortField == "created" && o.descending
    ensures o.read == (if tab == Unread then Some(false) else None)
    ensures o.saved == (if tab == Saved then Some(true) else None)
  {
    Options(ListPageSize, offset, "created", true,
            if tab == Unread then Some(false) else None,
            if tab == Saved then Some(true) else None)
  }

  /** Which tab a set of options was built for. */
  function TabOf(o: Options): Tab {
    if o.read == Some(false) then Unread else if o.saved == Some(true) then Saved else All
  }

  /** The options identify their tab and offset. */
  lemma TabOptionsInverse(tab: Tab, offset: nat)
    ensures TabOf(TabOptions(tab, offset)) == tab
    ensures TabOptions(tab, offset).offset == offset
  {
  }

  /** Switching tabs asks for the first page of the new tab. */
  lemma TabSwitchFirstPage(s: ListState<Tab>, tab: Tab)
    ensures var t := Step(s, SelectFilter(tab), ListPageSize);
            TabOptions(t.filter, t.offset) == TabOptions(tab, 0)
  {
  }

  /** The empty-list message of each tab. */
  function EmptyMessage(tab: Tab): (msg: string)
    ensures msg != ""
  {
    match tab
    case Unread => "No unread notifications"
    case Saved => "No saved notifications"
    case All => "No notifications"
  }

  /** Each tab has its own empty-list message. */
  lemma EmptyMessageDistinct(a: Tab, b: Tab)
    requires EmptyMessage(a) == EmptyMessage(b)
    ensures a == b
  {
  }

  /* ---------------- read and saved updates ---------------- */

  /** A listed notification; `readAt` is its read date, absent while unread. */
  datatype Notification = Notification(id: string, readAt: Option<int>, saved: bool,
                                       severity: Option<Severity>)

  predicate IsUnread(n: Notification) { n.readAt.None? }

  function Ids(ns: seq<Notification>): (ids: seq<string>)
    ensures |ids| == |ns|
    ensures forall i :: 0 <= i < |ns| ==> ids[i] == ns[i].id
  {
    seq(|ns|, i requires 0 <= i < |ns| => ns[i].id)
  }

  /** The "Mark all as read" button is shown only on the unread tab with a non-empty list. */
  predicate MarkAllShown(tab: Tab, ns: seq<Notification>) {
    tab == Unread && |ns| > 0
  }

  /**
   * The unread tab lists only unread notifications; there the button appears exactly when
   * pressing it sends a request.
   */
  lemma MarkAllShownSendsRequest(tab: Tab, ns: seq<Notification>)
    requires forall i :: 0 <= i < |ns| ==> IsUnread(ns[i])
    ensures MarkAllShown(tab, ns) <==> tab == Unread && MarkAllAsRead(ns).Some?
  {
    if |ns| > 0 {
      assert IsUnread(ns[0]);
    }
  }

  /**
   * `markAllAsRead`: the ids of the listed notifications without a read date, in list order;
   * no request at all when there are none.
   */
  function MarkAllAsRead(ns: seq<Notification>): (req: Option<seq<string>>)
    ensures req.None? <==> forall i :: 0 <= i < |ns| ==> !IsUnread(ns[i])
    ensures req.Some? ==> |req.value| > 0
    ensures req.Some? ==> forall id :: id in req.value <==> exists i :: 0 <= i < |ns| && IsUnread(ns[i]) && ns[i].id == id
  {
    var unread := Filter(ns, IsUnread);
    var ids := Ids(unread);
    if |ids| > 0 then
      assert forall id :: id in ids <==> exists n :: n in unread && n.id == id by {
        forall id | id in ids ensures exists n :: n in unread && n.id == id {
          var k :| 0 <= k < |ids| && ids[k] == id;
          assert unread[k] in unread;
        }
      }
      assert unread[0] in ns && IsUnread(unread[0]);
      Some(ids)
    else
      assert forall i :: 0 <= i < |ns| ==> !IsUnread(ns[i]) by {
        forall i | 0 <= i < |ns| ensures !IsUnread(ns[i]) {
          assert ns[i] in ns;
        }
      }
      None
  }

  /**
   * The assumed server side of `{ids, read: true}`: the listed unread notifications get a read
   * date, an existing read date is kept, and nothing else changes.
   */
  function ApplyRead(ns: seq<Notification>, ids: seq<string>, now: int): (r: seq<Notification>)
    ensures |r| == |ns|
    ensures forall i :: 0 <= i < |ns| ==>
              r[i].id == ns[i].id && r[i].saved == ns[i].saved && r[i].severity == ns[i].severity
    ensures forall i :: 0 <= i < |ns| ==> (IsUnread(r[i]) <==> IsUnread(ns[i]) && ns[i].id !in ids)
    ensures forall i :: 0 <= i < |ns| && !IsUnread(ns[i]) ==> r[i].readAt == ns[i].readAt
    ensures forall i :: 0 <= i < |ns| && IsUnread(ns[i]) && ns[i].id in ids ==> r[i].readAt == Some(now)
  {
    seq(|ns|, i requires 0 <= i < |ns| =>
      if ns[i].id in ids && IsUnread(ns[i]) then ns[i].(readAt := Some(now)) else ns[i])
  }

  /** After "Mark all as read" the list has no unread notification, and nothing else changed. */
  lemma MarkAllLeavesNoneUnread(ns: seq<Notification>, now: int)
    requires MarkAllAsRead(ns).Some?
    ensures var r := ApplyRead(ns, MarkAllAsRead(ns).value, now);
            (forall i :: 0 <= i < |r| ==> !IsUnread(r[i])) &&
            (forall i :: 0 <= i < |r| ==> r[i].id == ns[i].id && r[i].saved == ns[i].saved)
  {
    var ids := MarkAllAsRead(ns).value;
    forall i | 0 <= i < |ns| && IsUnread(ns[i])
      ensures ns[i].id in ids
    {
    }
  }

  /** `toggleSaved`: one id, with the saved flag flipped. */
  datatype SaveRequest = SaveRequest(ids: seq<string>, saved: bool)

  function ToggleSaved(id: string, currentlySaved: bool): (req: SaveRequest)
    ensures req.ids == [id]
    ensures req.saved != currentlySaved
  {
    SaveRequest([id], !currentlySaved)
  }

  /** The assumed server side of a save request: only the named notifications' flags change. */
  function ApplySaved(ns: seq<Notification>, req: SaveRequest): (r: seq<Notification>)
    ensures |r| == |ns|
    ensures forall i :: 0 <= i < |ns| ==>
              r[i].id == ns[i].id && r[i].readAt == ns[i].readAt && r[i].severity == ns[i].severity
    ensures forall i :: 0 <= i < |ns| ==> r[i].saved == if ns[i].id in req.ids then req.saved else ns[i].saved
  {
    seq(|ns|, i requires 0 <= i < |ns| => if ns[i].id in req.ids then ns[i].(saved := req.saved) else ns[i])
  }

  /** Toggling a notification twice from its displayed state restores the list. */
  lemma ToggleSavedTwice(ns: seq<Notification>, k: nat)
    requires k < |ns|
    requires forall i :: 0 <= i < |ns| && ns[i].id == ns[k].id ==> ns[i].saved == ns[k].saved
    ensures var once := ApplySaved(ns, ToggleSaved(ns[k].id, ns[k].saved));
            ApplySaved(once, ToggleSaved(once[k].id, once[k].saved)) == ns
  {
    var once := ApplySaved(ns, ToggleSaved(ns[k].id, ns[k].saved));
    var twice := ApplySaved(once, ToggleSaved(once[k].id, once[k].saved));
    assert forall i :: 0 <= i < |ns| ==> twice[i] == ns[i];
  }
}
