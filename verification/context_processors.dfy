/**
 * The template helpers: Arabic display names for product conditions, audit
 * actions and entity types, the badge colour of an audit action, the Arabic
 * rendering of dates and of elapsed time, and the query-argument merge used
 * to build pagination and filter links.
 */
module ContextProcessors {
  import opened Wrappers
  import opened Text

  /* ---------------------------------------------------------------------- */
  /* Ordered lookup tables (Python dicts keep insertion order)               */

  type Table = seq<(string, string)>

  predicate IsKey(table: Table, key: string)
  {
    exists i :: 0 <= i < |table| && table[i].0 == key
  }

  /** Index of the first entry whose key is `key` (dict.get on a table with distinct keys). */
  function FindKey(table: Table, key: string): (k: Option<nat>)
    ensures k.None? <==> !IsKey(table, key)
    ensures k.Some? ==> k.value < |table| && table[k.value].0 == key
    ensures k.Some? ==> forall i :: 0 <= i < k.value ==> table[i].0 != key
  {
    if table == [] then None
    else if table[0].0 == key then Some(0)
    else
      match FindKey(table[1..], key)
      case None =>
        assert forall i :: 1 <= i < |table| ==> table[i] == table[1..][i - 1];
        None
      case Some(k) => Some(k + 1)
  }

  /** `table.get(key, key)`: the entry's value, or the key itself when absent. */
  function GetOrSelf(table: Table, key: string): string
  {
    match FindKey(table, key)
    case Some(k) => table[k].1
    case None => key
  }

  /** Index of the first entry whose key begins `s`. */
  function FirstPrefix(table: Table, s: string): (k: Option<nat>)
    ensures k.None? <==> forall i :: 0 <= i < |table| ==> !(table[i].0 <= s)
    ensures k.Some? ==> k.value < |table| && table[k.value].0 <= s
    ensures k.Some? ==> forall i :: 0 <= i < k.value ==> !(table[i].0 <= s)
  {
    if table == [] then None
    else if table[0].0 <= s then Some(0)
    else
      match FirstPrefix(table[1..], s)
      case None =>
        assert forall i :: 1 <= i < |table| ==> table[i] == table[1..][i - 1];
        None
      case Some(k) => Some(k + 1)
  }

  /** Keys start with an ASCII letter, values with an Arabic letter: no value is ever a key's prefix or equal to it. */
  predicate ArabicOverAscii(table: Table)
  {
    forall i :: 0 <= i < |table| ==>
      |table[i].0| > 0 && (table[i].0[0] as int) < 0x80 && |table[i].1| > 0 && (table[i].1[0] as int) >= 0x600
  }

  /** Under such a table, the lookup returns its input exactly when the input is not a key. */
  lemma GetOrSelfFallsBackIff(table: Table, key: string)
    requires ArabicOverAscii(table)
    ensures GetOrSelf(table, key) == key <==> !IsKey(table, key)
  {
    var k := FindKey(table, key);
    if k.Some? {
      assert table[k.value].1[0] != key[0];
    }
  }

  /* ---------------------------------------------------------------------- */
  /* get_condition_name, entity_type_name                                   */

  const Conditions: Table := [
    ("new", "جديد"),
    ("like_new", "كالجديد"),
    ("good", "حالة جيدة"),
    ("acceptable", "حالة مقبولة"),
    ("refurbished", "مجدد")
  ]

  const EntityTypes: Table := [
    ("user", "مستخدم"),
    ("product", "منتج"),
    ("category", "تصنيف"),
    ("report", "بلاغ"),
    ("message", "رسالة")
  ]

  /** get_condition_name: the Arabic name of a known condition code; any other input unchanged. */
  function ConditionName(condition: string): (r: string)
    ensures IsKey(Conditions, condition) ==> exists i :: 0 <= i < |Conditions| && Conditions[i] == (condition, r)
    ensures r == condition <==> !IsKey(Conditions, condition)
  {
    ConditionTableShape();
    GetOrSelfFallsBackIff(Conditions, condition);
    GetOrSelf(Conditions, condition)
  }

  /** entity_type_name: the Arabic name of a known entity type; any other input unchanged. */
  function EntityTypeName(entityType: string): (r: string)
    ensures IsKey(EntityTypes, entityType) ==> exists i :: 0 <= i < |EntityTypes| && EntityTypes[i] == (entityType, r)
    ensures r == entityType <==> !IsKey(EntityTypes, entityType)
  {
    EntityTableShape();
    GetOrSelfFallsBackIff(EntityTypes, entityType);
    GetOrSelf(EntityTypes, entityType)
  }

  lemma ConditionTableShape()
    ensures ArabicOverAscii(Conditions)
  {
  }

  lemma EntityTableShape()
    ensures ArabicOverAscii(EntityTypes)
  {
  }

  /* ---------------------------------------------------------------------- */
  /* action_badge_class                                                      */

  /** action_badge_class: the colour of the first matching action prefix, else "primary". */
  function ActionBadgeClass(action: string): (r: string)
    ensures r in {"success", "warning", "danger", "info", "secondary", "primary"}
  {
    if "create" <= action then "success"
    else if "update" <= action then "warning"
    else if "delete" <= action then "danger"
    else if "login" <= action then "info"
    else if "logout" <= action then "secondary"
    else if "ban" <= action then "danger"
    else if "unban" <= action then "success"
    else if "activate" <= action then "success"
    else if "deactivate" <= action then "warning"
    else if "feature" <= action then "primary"
    else if "unfeature" <= action then "secondary"
    else "primary"
  }

  /** The same rule as a table of prefixes, tested in order. */
  const BadgeTable: Table := [
    ("create", "success"),
    ("update", "warning"),
    ("delete", "danger"),
    ("login", "info"),
    ("logout", "secondary"),
    ("ban", "danger"),
    ("unban", "success"),
    ("activate", "success"),
    ("deactivate", "warning"),
    ("feature", "primary"),
    ("unfeature", "secondary")
  ]

  /** The if-chain is the first-prefix lookup in the table, falling back to "primary". */
  lemma ActionBadgeClassIsFirstPrefix(action: string)
    ensures ActionBadgeClass(action) ==
      match FirstPrefix(BadgeTable, action)
      case Some(k) => BadgeTable[k].1
      case None => "primary"
  {
    var k := FirstPrefix(BadgeTable, action);
    assert BadgeTable[0] == ("create", "success");
    assert BadgeTable[1] == ("update", "warning");
    assert BadgeTable[2] == ("delete", "danger");
    assert BadgeTable[3] == ("login", "info");
    assert BadgeTable[4] == ("logout", "secondary");
    assert BadgeTable[5] == ("ban", "danger");
    assert BadgeTable[6] == ("unban", "success");
    assert BadgeTable[7] == ("activate", "success");
    assert BadgeTable[8] == ("deactivate", "warning");
    assert BadgeTable[9] == ("feature", "primary");
    assert BadgeTable[10] == ("unfeature", "secondary");
  }

  /* ---------------------------------------------------------------------- */
  /* action_name                                                             */

  const ActionNames: Table := [
    ("create", "إنشاء"),
    ("update", "تحديث"),
    ("delete", "حذف"),
    ("login", "تسجيل دخول"),
    ("logout", "تسجيل خروج"),
    ("ban_user", "حظر مستخدم"),
    ("unban_user", "إلغاء حظر مستخدم"),
    ("activate_product", "تفعيل منتج"),
    ("deactivate_product", "إيقاف منتج"),
    ("feature_product", "تمييز منتج"),
    ("unfeature_product", "إلغاء تمييز منتج"),
    ("update_profile_image", "تحديث صورة الملف الشخصي"),
    ("register", "تسجيل حساب"),
    ("password_reset_request", "طلب إعادة تعيين كلمة المرور"),
    ("change_email_request", "طلب تغيير البريد الإلكتروني"),
    ("change_email_completed", "تغيير البريد الإلكتروني"),
    ("add_favorite", "إضافة للمفضلة"),
    ("remove_favorite", "إزالة من المفضلة"),
    ("report", "إبلاغ"),
    ("update_report_pending", "إعادة فتح البلاغ"),
    ("update_report_resolved", "حل البلاغ"),
    ("update_report_rejected", "رفض البلاغ")
  ]

  /** action_name: an exact key first, then the first key in table order that begins the action, else the action. */
  function ActionName(action: string): (r: string)
    ensures IsKey(ActionNames, action) ==> exists i :: 0 <= i < |ActionNames| && ActionNames[i] == (action, r)
    ensures !IsKey(ActionNames, action) && FirstPrefix(ActionNames, action).Some? ==>
              r == ActionNames[FirstPrefix(ActionNames, action).value].1
    ensures FirstPrefix(ActionNames, action).None? ==> r == action
  {
    match FindKey(ActionNames, action)
    case Some(k) => ActionNames[k].1
    case None =>
      match FirstPrefix(ActionNames, action)
      case Some(k) => ActionNames[k].1
      case None => action
  }

  lemma ActionTableShape()
    ensures ArabicOverAscii(ActionNames)
  {
  }

  /** The action comes back unchanged exactly when no key begins it. */
  lemma ActionNameFallsBackIff(action: string)
    ensures ActionName(action) == action <==> FirstPrefix(ActionNames, action).None?
  {
    ActionTableShape();
    var e := FindKey(ActionNames, action);
    var p := FirstPrefix(ActionNames, action);
    if e.Some? {
      assert ActionNames[e.value].0 <= action;
      assert ActionNames[e.value].1[0] != action[0];
    } else if p.Some? {
      assert ActionNames[p.value].0[0] == action[0];
      assert ActionNames[p.value].1[0] != action[0];
    }
  }

  /** Any action that begins with "update" and is not itself a key reads as "update" ("update_report_x" included). */
  lemma UpdatePrefixReadsUpdate(action: string)
    requires "update" <= action && !IsKey(ActionNames, action)
    ensures ActionName(action) == "تحديث"
  {
    assert ActionNames[1].0 == "update";
    assert !(ActionNames[0].0 <= action) by {
      assert ActionNames[0].0[0] == 'c' && action[0] == 'u';
    }
    assert FirstPrefix(ActionNames, action) == Some(1);
  }

  /* ---------------------------------------------------------------------- */
  /* format_date                                                             */

  type Month = m: int | 1 <= m <= 12 witness 1

  /** The fields of a date that format_date reads. */
  datatype Date = Date(year: nat, month: Month, day: nat)

  const UnknownDate: string := "تاريخ غير معروف"

  const MonthNames: seq<string> := [
    "يناير", "فبراير", "مارس", "أبريل", "مايو", "يونيو",
    "يوليو", "أغسطس", "سبتمبر", "أكتوبر", "نوفمبر", "ديسمبر"
  ]

  /** format_date: "day month-name year", or the unknown-date text when there is no date. */
  function FormatDate(date: Option<Date>): (r: string)
    ensures date.None? <==> r == UnknownDate
  {
    match date
    case None => UnknownDate
    case Some(d) =>
      var r := NatToString(d.day) + " " + MonthNames[d.month - 1] + " " + NatToString(d.year);
      assert r[0] != UnknownDate[0];
      r
  }

  /** The month whose Arabic name is `name`. */
  function MonthOf(name: string): (m: Option<Month>)
    ensures m.Some? ==> MonthNames[m.value - 1] == name
  {
    match IndexOf(MonthNames, name)
    case Some(i) => Some(i + 1)
    case None => None
  }

  function IndexOf(names: seq<string>, name: string): (k: Option<nat>)
    ensures k.Some? ==> k.value < |names| && names[k.value] == name
    ensures k.Some? ==> forall i :: 0 <= i < k.value ==> names[i] != name
    ensures k.None? ==> name !in names
  {
    if names == [] then None
    else if names[0] == name then Some(0)
    else
      match IndexOf(names[1..], name)
      case None => None
      case Some(k) => Some(k + 1)
  }

  /** Reads a date back from the text format_date produced. */
  function ParseDate(s: string): Option<Date>
  {
    var parts := Split(s, ' ');
    if |parts| != 3 then None
    else
      match (ParseNat(parts[0]), MonthOf(parts[1]), ParseNat(parts[2]))
      case (Some(day), Some(month), Some(year)) => Some(Date(year, month, day))
      case _ => None
  }

  lemma MonthNamesShape()
    ensures forall i :: 0 <= i < |MonthNames| ==> ' ' !in MonthNames[i]
    ensures forall i, j :: 0 <= i < j < |MonthNames| ==> MonthNames[i] != MonthNames[j]
  {
  }

  lemma NoSpaceInNumeral(n: nat)
    ensures ' ' !in NatToString(n)
  {
    var s := NatToString(n);
    assert forall i :: 0 <= i < |s| ==> IsDigit(s[i]);
  }

  /** Each month's Arabic name reads back as that month. */
  lemma MonthOfName(k: Month)
    ensures MonthOf(MonthNames[k - 1]) == Some(k)
  {
    MonthNamesShape();
    assert MonthNames[k - 1] in MonthNames;
  }

  /** A formatted date reads back as the same date. */
  lemma FormatDateRoundTrip(d: Date)
    ensures ParseDate(FormatDate(Some(d))) == Some(d)
  {
    var a := NatToString(d.day);
    var m := MonthNames[d.month - 1];
    var y := NatToString(d.year);
    MonthNamesShape();
    NoSpaceInNumeral(d.day);
    NoSpaceInNumeral(d.year);
    SplitThree(a, ' ', m, y);
    NatToStringRoundTrip(d.day);
    NatToStringRoundTrip(d.year);
    MonthOfName(d.month);
  }

  /** The unknown-date text never reads as a date. */
  lemma UnknownDateIsNoDate()
    ensures ParseDate(FormatDate(None)) == None
  {
    var w := "تاريخ";
    assert !IsDigit(w[0]);
    assert UnknownDate == w + [' '] + "غير" + [' '] + "معروف";
    SplitThree(w, ' ', "غير", "معروف");
  }

  /* ---------------------------------------------------------------------- */
  /* time_since                                                              */

  /**
   * What time_since receives: a moment `elapsed` whole seconds before now
   * (negative for a moment in the future), or something that is not a
   * datetime and does not parse as one.
   */
  datatype Timestamp = Elapsed(seconds: int) | NotATime

  datatype Unit = Minute | Hour | Day | Month30 | Year365

  /** How long ago, as time_since reports it. */
  datatype Ago = Moments | Count(n: nat, unit: Unit)

  function UnitSeconds(u: Unit): nat
  {
    match u
    case Minute => 60
    case Hour => 3600
    case Day => 86400
    case Month30 => 2592000
    case Year365 => 31536000
  }

  function UnitRank(u: Unit): nat
  {
    match u
    case Minute => 1
    case Hour => 2
    case Day => 3
    case Month30 => 4
    case Year365 => 5
  }

  function Rank(a: Ago): nat
  {
    match a
    case Moments => 0
    case Count(_, u) => UnitRank(u)
  }

  /** The bucket of the if/elif chain: below each threshold, the count of the previous unit. */
  function Bucket(seconds: int): (a: Ago)
    ensures a.Moments? <==> seconds < 60
  {
    if seconds < 60 then Moments
    else if seconds < 3600 then Count(seconds / 60, Minute)
    else if seconds < 86400 then Count(seconds / 3600, Hour)
    else if seconds < 2592000 then Count(seconds / 86400, Day)
    else if seconds < 31536000 then Count(seconds / 2592000, Month30)
    else Count(seconds / 31536000, Year365)
  }

  /**
   * The count is the number of whole units elapsed, the unit is the largest
   * one not exceeding the elapsed time, and so the count is at least one.
   */
  lemma BucketMeaning(seconds: int)
    requires seconds >= 60
    ensures var a := Bucket(seconds);
            && a.Count?
            && a.n * UnitSeconds(a.unit) <= seconds < (a.n + 1) * UnitSeconds(a.unit)
            && a.n >= 1
            && forall u :: UnitRank(u) > UnitRank(a.unit) ==> seconds < UnitSeconds(u)
  {
  }

  /** Counts stay below the next unit: under 60 minutes, 24 hours, 30 days, 13 months. */
  lemma BucketBounds(seconds: int)
    ensures var a := Bucket(seconds);
            && (a.Count? && a.unit == Minute ==> a.n < 60)
            && (a.Count? && a.unit == Hour ==> a.n < 24)
            && (a.Count? && a.unit == Day ==> a.n < 30)
            && (a.Count? && a.unit == Month30 ==> a.n <= 12)
  {
  }

  /** Later moments never read as more recent. */
  lemma BucketMonotonic(s1: int, s2: int)
    requires s1 <= s2
    ensures Rank(Bucket(s1)) <= Rank(Bucket(s2))
    ensures Bucket(s1).Count? && Bucket(s2).Count? && Bucket(s1).unit == Bucket(s2).unit ==>
              Bucket(s1).n <= Bucket(s2).n
  {
  }

  function Singular(u: Unit): string
  {
    match u
    case Minute => "دقيقة"
    case Hour => "ساعة"
    case Day => "يوم"
    case Month30 => "شهر"
    case Year365 => "سنة"
  }

  function Plural(u: Unit): string
  {
    match u
    case Minute => "دقائق"
    case Hour => "ساعات"
    case Day => "أيام"
    case Month30 => "أشهر"
    case Year365 => "سنوات"
  }

  const Since: string := "منذ "
  const JustNow: string := "منذ لحظات"
  const UnknownTime: string := "وقت غير معروف"

  /** The text of a bucket: "just now", or "since N unit" with the singular for exactly one. */
  function Render(a: Ago): (r: string)
    ensures a.Moments? <==> r == JustNow
  {
    match a
    case Moments => JustNow
    case Count(n, u) =>
      var r := Since + NatToString(n) + " " + (if n == 1 then Singular(u) else Plural(u));
      assert r[4] != JustNow[4] by {
        assert r[4] == NatToString(n)[0];
      }
      r
  }

  /** time_since. */
  function TimeSince(t: Timestamp): (r: string)
    ensures t.NotATime? <==> r == UnknownTime
    ensures t.Elapsed? && t.seconds < 60 ==> r == JustNow
  {
    match t
    case NotATime => UnknownTime
    case Elapsed(s) =>
      var r := Render(Bucket(s));
      assert r[0] != UnknownTime[0];
      r
  }

  /** The unit a word names, and whether the word is its singular. */
  function UnitWord(w: string): (r: Option<(Unit, bool)>)
    ensures r.Some? ==> w == if r.value.1 then Singular(r.value.0) else Plural(r.value.0)
  {
    if w == "دقيقة" then Some((Minute, true))
    else if w == "دقائق" then Some((Minute, false))
    else if w == "ساعة" then Some((Hour, true))
    else if w == "ساعات" then Some((Hour, false))
    else if w == "يوم" then Some((Day, true))
    else if w == "أيام" then Some((Day, false))
    else if w == "شهر" then Some((Month30, true))
    else if w == "أشهر" then Some((Month30, false))
    else if w == "سنة" then Some((Year365, true))
    else if w == "سنوات" then Some((Year365, false))
    else None
  }

  /**
   * Reads a bucket back from the text time_since produced: "just now", or
   * "since", a numeral and a unit word whose number agrees with the numeral.
   */
  function ParseAgo(s: string): Option<Ago>
  {
    if s == JustNow then Some(Moments)
    else
      var parts := Split(s, ' ');
      if |parts| != 3 || parts[0] != "منذ" then None
      else
        match (ParseNat(parts[1]), UnitWord(parts[2]))
        case (Some(n), Some((u, single))) => if single == (n == 1) then Some(Count(n, u)) else None
        case _ => None
  }

  /** The singular and the plural of a unit are different words. */
  lemma SingularIsNotPlural(u: Unit)
    ensures Singular(u) != Plural(u)
  {
    match u
    case Minute => assert Singular(u)[|Singular(u)| - 1] != Plural(u)[|Plural(u)| - 1];
    case Hour => assert |Singular(u)| != |Plural(u)|;
    case Day => assert |Singular(u)| != |Plural(u)|;
    case Month30 => assert |Singular(u)| != |Plural(u)|;
    case Year365 => assert |Singular(u)| != |Plural(u)|;
  }

  /** Each unit word reads back as its unit and number. */
  lemma UnitWordOf(u: Unit, single: bool)
    ensures UnitWord(if single then Singular(u) else Plural(u)) == Some((u, single))
  {
  }

  /** No unit word contains a space. */
  lemma NoSpaceInUnitWord(u: Unit, single: bool)
    ensures ' ' !in (if single then Singular(u) else Plural(u))
  {
  }

  /** "since N unit" splits into "since", the numeral and the unit word. */
  lemma RenderFields(n: nat, u: Unit)
    ensures Split(Render(Count(n, u)), ' ') == ["منذ", NatToString(n), if n == 1 then Singular(u) else Plural(u)]
  {
    var num := NatToString(n);
    var word := if n == 1 then Singular(u) else Plural(u);
    NoSpaceInNumeral(n);
    NoSpaceInUnitWord(u, n == 1);
    assert Since == "منذ" + [' '];
    assert Render(Count(n, u)) == Since + num + [' '] + word;
    SplitThree("منذ", ' ', num, word);
  }

  /** The text of every bucket reads back as that bucket: the count and the unit are both in it. */
  lemma RenderRoundTrip(a: Ago)
    ensures ParseAgo(Render(a)) == Some(a)
  {
    match a
    case Moments =>
    case Count(n, u) =>
      RenderFields(n, u);
      NatToStringRoundTrip(n);
      UnitWordOf(u, n == 1);
  }

  /** The unit word of "since N unit" is the singular exactly when N is 1. */
  lemma RenderUsesSingularIff(n: nat, u: Unit)
    ensures LastField(Render(Count(n, u)), ' ') == Singular(u) <==> n == 1
  {
    var num := NatToString(n);
    var word := if n == 1 then Singular(u) else Plural(u);
    assert ' ' !in word;
    assert Render(Count(n, u)) == ("منذ" + [' '] + num) + [' '] + word;
    LastFieldAfter("منذ" + [' '] + num, ' ', word);
    SingularIsNotPlural(u);
  }

  /** What time_since prints for an elapsed time reads back as the bucket of that time. */
  lemma TimeSinceReadsBucket(seconds: int)
    ensures ParseAgo(TimeSince(Elapsed(seconds))) == Some(Bucket(seconds))
  {
    RenderRoundTrip(Bucket(seconds));
  }

  /** The unknown-time text never reads as a bucket. */
  lemma UnknownTimeIsNoAgo()
    ensures ParseAgo(UnknownTime) == None
  {
    var w := "وقت";
    assert UnknownTime == w + [' '] + "غير" + [' '] + "معروف";
    SplitThree(w, ' ', "غير", "معروف");
  }

  /* ---------------------------------------------------------------------- */
  /* url_for_with_args                                                       */

  /** The query arguments after applying one keyword argument: None removes the key, a value sets it. */
  function Apply(args: map<string, string>, kw: (string, Option<string>)): map<string, string>
  {
    match kw.1
    case None => args - {kw.0}
    case Some(v) => args[kw.0 := v]
  }

  /** The query arguments after the keyword arguments, in order. */
  function Merged(args: map<string, string>, kwargs: seq<(string, Option<string>)>): map<string, string>
  {
    if kwargs == [] then args
    else Apply(Merged(args, kwargs[..|kwargs| - 1]), kwargs[|kwargs| - 1])
  }

  /**
   * url_for_with_args (the second definition, which replaces the first): the
   * current request's arguments updated by the keyword arguments. The result
   * is what is passed to url_for.
   */
  method UrlForWithArgs(requestArgs: map<string, string>, kwargs: seq<(string, Option<string>)>)
    returns (args: map<string, string>)
    ensures args == Merged(requestArgs, kwargs)
  {
    args := requestArgs;
    for i := 0 to |kwargs|
      invariant args == Merged(requestArgs, kwargs[..i])
    {
      var (key, value) := kwargs[i];
      if value.None? {
        if key in args {
          args := args - {key};
        }
      } else {
        args := args[key := value.value];
      }
      assert kwargs[..i + 1][..i] == kwargs[..i];
    }
    assert kwargs[..|kwargs|] == kwargs;
  }

  ghost predicate DistinctKeys(kwargs: seq<(string, Option<string>)>)
  {
    forall i, j :: 0 <= i < j < |kwargs| ==> kwargs[i].0 != kwargs[j].0
  }

  /**
   * With distinct keyword names (as Python guarantees): a keyword set to None
   * removes its key, any other keyword sets its value, and every argument no
   * keyword names is kept as it was.
   */
  lemma {:induction false} MergedMeaning(args: map<string, string>, kwargs: seq<(string, Option<string>)>)
    requires DistinctKeys(kwargs)
    ensures forall i :: 0 <= i < |kwargs| && kwargs[i].1.None? ==> kwargs[i].0 !in Merged(args, kwargs)
    ensures forall i :: 0 <= i < |kwargs| && kwargs[i].1.Some? ==>
              kwargs[i].0 in Merged(args, kwargs) && Merged(args, kwargs)[kwargs[i].0] == kwargs[i].1.value
    ensures forall k :: (forall i :: 0 <= i < |kwargs| ==> kwargs[i].0 != k) ==>
              (k in Merged(args, kwargs) <==> k in args) &&
              (k in args ==> Merged(args, kwargs)[k] == args[k])
    decreases |kwargs|
  {
    if kwargs != [] {
      var init := kwargs[..|kwargs| - 1];
      assert DistinctKeys(init);
      MergedMeaning(args, init);
      var last := kwargs[|kwargs| - 1];
      forall i | 0 <= i < |kwargs| - 1 ensures kwargs[i].0 != last.0 && kwargs[i] == init[i] { }
    }
  }
}
