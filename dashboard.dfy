/**
 * The display helpers of the user dashboard: a relative "time ago" label
 * for a timestamp, an HTML badge for a `session_logs` action, and the icon
 * class for a plan name. All three are pure.
 */
module Dashboard {
  import opened Common
  import opened Store

  const Minute: int := 60
  const Hour: int := 3600
  const Day: int := 86400

  /** "Hace {n} {word}", with an 's' appended when n is more than one. */
  function Ago(n: nat, word: string): string
  {
    "Hace " + NatToString(n) + " " + word + (if n > 1 then "s" else "")
  }

  /**
   * `timeAgo`: the label for a timestamp seen at time `now`. Less than a
   * minute (including a timestamp in the future) reads as "a few seconds";
   * from a day on, `formatDate` (the `d/m/Y H:i` rendering) is used.
   */
  function TimeAgo(now: int, ts: int, formatDate: int -> string): (r: string)
    ensures now - ts < Minute ==> r == "Hace unos segundos"
    ensures now - ts >= Day ==> r == formatDate(ts)
    ensures Minute <= now - ts < Day ==> |r| > 5 && r[..5] == "Hace "
  {
    var d := now - ts;
    if d < Minute then "Hace unos segundos"
    else if d < Hour then Ago(d / Minute, "minuto")
    else if d < Day then Ago(d / Hour, "hora")
    else formatDate(ts)
  }

  /**
   * Between a minute and an hour the label counts whole minutes: the
   * printed n is the one with n minutes <= elapsed < n + 1 minutes.
   */
  lemma TimeAgoMinutes(now: int, ts: int, formatDate: int -> string)
    requires Minute <= now - ts < Hour
    ensures exists n: nat :: (1 <= n < 60 && n * Minute <= now - ts < (n + 1) * Minute &&
                              TimeAgo(now, ts, formatDate) == Ago(n, "minuto"))
  {
    var n := (now - ts) / Minute;
    assert n * Minute <= now - ts < (n + 1) * Minute;
    assert TimeAgo(now, ts, formatDate) == Ago(n, "minuto");
  }

  /** Between an hour and a day the label counts whole hours, 1 to 23. */
  lemma TimeAgoHours(now: int, ts: int, formatDate: int -> string)
    requires Hour <= now - ts < Day
    ensures exists n: nat :: (1 <= n < 24 && n * Hour <= now - ts < (n + 1) * Hour &&
                              TimeAgo(now, ts, formatDate) == Ago(n, "hora"))
  {
    var n := (now - ts) / Hour;
    assert n * Hour <= now - ts < (n + 1) * Hour;
    assert TimeAgo(now, ts, formatDate) == Ago(n, "hora");
  }

  /** The label ends in 's' exactly when it counts more than one unit. */
  lemma AgoPlural(n: nat, word: string)
    requires word != [] && word[|word| - 1] != 's'
    ensures var r := Ago(n, word); r[|r| - 1] == 's' <==> n > 1
  {
    var digits := NatToString(n);
    var r := Ago(n, word);
    if n <= 1 {
      assert r == "Hace " + digits + " " + word;
      assert r[|r| - 1] == word[|word| - 1];
    }
  }

  /** The number in the label reads back as the count it was built from. */
  lemma AgoReadsBack(n: nat, word: string)
    ensures var r := Ago(n, word); var k := |NatToString(n)|;
      5 + k <= |r| && AllDigits(r[5..5 + k]) && ParseNat(r[5..5 + k]) == n
  {
    var r := Ago(n, word);
    var k := |NatToString(n)|;
    assert r[5..5 + k] == NatToString(n);
    ParseNatToString(n);
  }

  // ---------------------------------------------------------------------
  // getActionBadge
  // ---------------------------------------------------------------------

  /** A Bootstrap badge of the given colour classes around `inner`. */
  function Badge(classes: string, inner: string): string
  {
    "<span class=\"badge " + classes + "\">" + inner + "</span>"
  }

  /** The colour class of each action's fixed badge. */
  function BadgeColour(a: Action): string
  {
    match a
    case Login => "bg-success"
    case Logout => "bg-secondary"
    case SessionRotated => "bg-warning"
    case SessionExpired => "bg-info"
    case ForcedLogout => "bg-danger"
  }

  /** The icon and label inside each action's fixed badge. */
  function BadgeLabel(a: Action): string
  {
    match a
    case Login => "<i class=\"bi bi-box-arrow-in-right\"></i> Login"
    case Logout => "<i class=\"bi bi-box-arrow-right\"></i> Logout"
    case SessionRotated => "<i class=\"bi bi-arrow-repeat\"></i> Rotación"
    case SessionExpired => "<i class=\"bi bi-clock-history\"></i> Expirada"
    case ForcedLogout => "<i class=\"bi bi-x-circle\"></i> Forzado"
  }

  /** The fixed badge for each of the five actions the engine writes. */
  function KnownBadge(a: Action): string
  {
    Badge(BadgeColour(a), BadgeLabel(a))
  }

  /** The neutral badge any other action text is shown in. */
  function FallbackBadge(action: string): string
  {
    Badge("bg-light text-dark", action)
  }

  /**
   * `getActionBadge`: a known action gets its fixed badge; any other text
   * is embedded, unescaped, in a neutral badge.
   */
  function ActionBadge(action: string): (r: string)
    ensures forall a: Action :: action == ActionName(a) ==> r == KnownBadge(a)
    ensures (forall a: Action :: action != ActionName(a)) ==> r == FallbackBadge(action)
  {
    if action == ActionName(Action.Login) then KnownBadge(Action.Login)
    else if action == ActionName(Action.Logout) then KnownBadge(Action.Logout)
    else if action == ActionName(SessionRotated) then KnownBadge(SessionRotated)
    else if action == ActionName(SessionExpired) then KnownBadge(SessionExpired)
    else if action == ActionName(ForcedLogout) then KnownBadge(ForcedLogout)
    else FallbackBadge(action)
  }

  /** Character 22 of a badge is the fourth character of its colour classes. */
  lemma BadgeColourChar(classes: string, inner: string)
    requires |classes| > 3
    ensures Badge(classes, inner)[22] == classes[3]
  {
    var prefix := "<span class=\"badge ";
    assert |prefix| == 19;
    assert Badge(classes, inner) == prefix + classes + ("\">" + inner + "</span>");
  }

  /** Every entry the engine writes is shown with its dedicated badge, never the fallback. */
  lemma EngineActionsHaveBadges(e: LogEntry)
    ensures ActionBadge(ActionName(e.action)) == KnownBadge(e.action)
    ensures ActionBadge(ActionName(e.action)) != FallbackBadge(ActionName(e.action))
  {
    BadgeColourChar(BadgeColour(e.action), BadgeLabel(e.action));
    BadgeColourChar("bg-light text-dark", ActionName(e.action));
    match e.action
    case Login =>
    case Logout =>
    case SessionRotated =>
    case SessionExpired =>
    case ForcedLogout =>
  }

  // ---------------------------------------------------------------------
  // getPlanIcon
  // ---------------------------------------------------------------------

  /** `getPlanIcon`: Basic, Pro and Premium have their icons; any other name gets the plain star. */
  function PlanIcon(planName: string): (r: string)
    ensures planName == "Pro" ==> r == "bi-star-fill"
    ensures planName == "Premium" ==> r == "bi-stars"
    ensures planName != "Pro" && planName != "Premium" ==> r == "bi-star"
  {
    if planName == "Basic" then "bi-star"
    else if planName == "Pro" then "bi-star-fill"
    else if planName == "Premium" then "bi-stars"
    else "bi-star"
  }

  /** The three plans are told apart by icon; any other name looks like Basic. */
  lemma PlanIconsDistinct(other: string)
    requires other != "Pro" && other != "Premium"
    ensures PlanIcon("Basic") != PlanIcon("Pro") && PlanIcon("Pro") != PlanIcon("Premium")
    ensures PlanIcon("Premium") != PlanIcon("Basic")
    ensures PlanIcon(other) == PlanIcon("Basic")
  {
    assert PlanIcon("Pro")[7] == '-';
    assert |PlanIcon("Basic")| == 7 && |PlanIcon("Premium")| == 8;
  }
}
