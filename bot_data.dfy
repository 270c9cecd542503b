/**
 * The bot's bookkeeping document (the JSON data file): a `users` dictionary
 * keyed by the decimal spelling of the user id, `system` metadata and the
 * `global_stats` download counters, with the pure transitions applied to it.
 * Every handler loads the whole document; those that change it write the
 * whole document back.
 *
 * A field of a user record, or the `global_stats` object, may be absent from
 * a file, so they are `Option`s; the source reads them with `dict.get`
 * defaults or fails on them, and the model keeps both behaviours.
 */
module BotData {
  import opened Wrappers
  import Decimal

  /** The version written into a freshly created file. */
  const Version: string := "3.1"
  /** The language of a user with no stored preference. */
  const DefaultLang: string := "en"

  datatype UserRecord = UserRecord(firstSeen: Option<string>, lang: Option<string>, downloadCount: Option<nat>)
  datatype SystemInfo = SystemInfo(version: string, startDate: string)
  datatype GlobalStats = GlobalStats(arDownloads: nat, enDownloads: nat)
  datatype Data = Data(users: map<string, UserRecord>, system: SystemInfo, globalStats: Option<GlobalStats>)

  /** The key of a user in `users`: `str(user_id)`. */
  function Key(userId: int): (k: string)
    ensures forall other: int {:trigger Decimal.Str(other)} :: Decimal.Str(other) == k ==> other == userId
  {
    forall other: int | Decimal.Str(other) == Decimal.Str(userId) ensures other == userId {
      Decimal.StrInjective(other, userId);
    }
    Decimal.Str(userId)
  }

  const ZeroStats: GlobalStats := GlobalStats(0, 0)

  /**
   * `load_data`: the document read from the file (`None` when the file
   * does not exist or its text is not valid JSON), with `global_stats` filled in when absent.
   * `now` is the clock reading used as the start date of a fresh document.
   */
  function Load(file: Option<Data>, now: string): (d: Data)
    ensures d.globalStats.Some?
    ensures file.None? ==> d.users == map[] && d.system == SystemInfo(Version, now) && d.globalStats == Some(ZeroStats)
    ensures file.Some? ==> d.users == file.value.users && d.system == file.value.system
    ensures file.Some? && file.value.globalStats.None? ==> d.globalStats == Some(ZeroStats)
    ensures file.Some? && file.value.globalStats.Some? ==> d == file.value
  {
    match file
    case None => Data(map[], SystemInfo(Version, now), Some(ZeroStats))
    case Some(data) => if data.globalStats.None? then data.(globalStats := Some(ZeroStats)) else data
  }

  /** Loading what a load produced and was saved gives it back, whatever the clock says. */
  lemma LoadSaved(file: Option<Data>, now: string, later: string)
    ensures Load(Some(Load(file, now)), later) == Load(file, now)
  {
    assert Load(file, now).globalStats.Some?;
  }

  /** `get_user_lang`: the stored language, or "en" for an unknown user or a record without one. */
  function LangOf(users: map<string, UserRecord>, key: string): (lang: string)
    ensures key in users && users[key].lang.Some? ==> lang == users[key].lang.value
    ensures key !in users || users[key].lang.None? ==> lang == DefaultLang
  {
    if key in users then users[key].lang.GetOr(DefaultLang) else DefaultLang
  }

  /**
   * `set_user_lang`: an unknown user gets a fresh record with the language,
   * no downloads and `now` as first-seen time; a known user's language is
   * replaced. Nothing else in the document changes.
   */
  function WithLang(d: Data, key: string, lang: string, now: string): (r: Data)
    ensures r.system == d.system && r.globalStats == d.globalStats
    ensures r.users.Keys == d.users.Keys + {key}
    ensures |r.users| == if key in d.users then |d.users| else |d.users| + 1
    ensures LangOf(r.users, key) == lang
    ensures key !in d.users ==> r.users[key] == UserRecord(Some(now), Some(lang), Some(0))
    ensures key in d.users ==> r.users[key] == d.users[key].(lang := Some(lang))
    ensures forall k :: k in d.users && k != key ==> r.users[k] == d.users[k]
  {
    if key !in d.users then
      d.(users := d.users[key := UserRecord(Some(now), Some(lang), Some(0))])
    else
      d.(users := d.users[key := d.users[key].(lang := Some(lang))])
  }

  /** Setting one user's language leaves the language of every other user id as it was. */
  lemma LangOfOthers(d: Data, userId: int, lang: string, now: string, otherId: int)
    requires otherId != userId
    ensures LangOf(WithLang(d, Key(userId), lang, now).users, Key(otherId)) == LangOf(d.users, Key(otherId))
  {
    assert Key(otherId) != Key(userId);
  }

  /** `/start`: `set_user_lang(u, get_user_lang(u))`. */
  function Registered(d: Data, key: string, now: string): (r: Data)
    ensures key in r.users
  {
    WithLang(d, key, LangOf(d.users, key), now)
  }

  /** `/start` makes an unknown user known with language "en", no downloads and `now` as first-seen time. */
  lemma RegisterUnknown(d: Data, key: string, now: string)
    requires key !in d.users
    ensures Registered(d, key, now).users == d.users[key := UserRecord(Some(now), Some(DefaultLang), Some(0))]
    ensures Registered(d, key, now).system == d.system && Registered(d, key, now).globalStats == d.globalStats
  {
  }

  /** `/start` leaves the document of a known user who has a stored language exactly as it was. */
  lemma RegisterKnown(d: Data, key: string, now: string)
    requires key in d.users && d.users[key].lang.Some?
    ensures Registered(d, key, now) == d
  {
    var r := Registered(d, key, now);
    assert r.users[key] == d.users[key];
    assert r.users == d.users;
  }

  /** A second `/start` changes nothing, whatever the clock says. */
  lemma RegisterIdempotent(d: Data, key: string, now: string, later: string)
    ensures Registered(Registered(d, key, now), key, later) == Registered(d, key, now)
  {
    RegisterKnown(Registered(d, key, now), key, later);
  }

  /**
   * At the level of the file: after one `/start` has been saved, a second
   * `/start` by the same user, at any later time, writes back the same document.
   */
  lemma StartTwice(file: Option<Data>, key: string, now: string, later: string)
    ensures Registered(Load(Some(Registered(Load(file, now), key, now)), later), key, later)
         == Registered(Load(file, now), key, now)
  {
    var saved := Registered(Load(file, now), key, now);
    assert saved.globalStats.Some?;
    assert Load(Some(saved), later) == saved;
    RegisterIdempotent(Load(file, now), key, now, later);
  }

  /** A user's stored count, with a missing one read as 0 (`user.get("download_count", 0)`). */
  function CountOf(u: UserRecord): (n: nat)
    ensures u.downloadCount.Some? ==> n == u.downloadCount.value
    ensures u.downloadCount.None? ==> n == 0
  {
    u.downloadCount.GetOr(0)
  }

  /** The language counters after one download in language `lang`. */
  function Counted(g: GlobalStats, lang: string): (r: GlobalStats)
    ensures lang == "ar" ==> r.arDownloads == g.arDownloads + 1 && r.enDownloads == g.enDownloads
    ensures lang == "en" ==> r.enDownloads == g.enDownloads + 1 && r.arDownloads == g.arDownloads
    ensures lang != "ar" && lang != "en" ==> r == g
  {
    if lang == "ar" then g.(arDownloads := g.arDownloads + 1)
    else if lang == "en" then g.(enDownloads := g.enDownloads + 1)
    else g
  }

  /**
   * The bookkeeping after a successful download by `key` whose language was
   * `lang` at the start of the request. `None` when the user's record has no
   * `download_count`: the increment raises, the handler's `except` catches it
   * and nothing is saved.
   */
  function AfterDownload(d: Data, key: string, lang: string): (r: Option<Data>)
    requires d.globalStats.Some?
    ensures r.None? <==> key in d.users && d.users[key].downloadCount.None?
    ensures r.Some? ==> r.value.system == d.system && r.value.users.Keys == d.users.Keys
    ensures r.Some? ==> r.value.globalStats == Some(Counted(d.globalStats.value, lang))
    ensures r.Some? && key in d.users ==> r.value.users[key] == d.users[key].(downloadCount := Some(CountOf(d.users[key]) + 1))
    ensures r.Some? ==> forall k :: k in d.users && k != key ==> r.value.users[k] == d.users[k]
  {
    var stats := Counted(d.globalStats.value, lang);
    if key !in d.users then
      Some(d.(globalStats := Some(stats)))
    else
      match d.users[key].downloadCount
      case None => None
      case Some(n) =>
        Some(d.(globalStats := Some(stats), users := d.users[key := d.users[key].(downloadCount := Some(n + 1))]))
  }

  /** The sum of all users' download counts (`sum(user.get("download_count", 0) for ...)`). */
  ghost function TotalDownloads(users: map<string, UserRecord>): (total: nat)
    ensures users == map[] ==> total == 0
    ensures (forall k :: k in users ==> CountOf(users[k]) == 0) ==> total == 0
    ensures forall k :: k in users ==> CountOf(users[k]) <= total
    decreases |users|
  {
    if users == map[] then 0
    else
      var k :| k in users;
      assert |users - {k}| < |users| by { assert users.Keys - {k} < users.Keys; }
      assert forall j :: j in users && j != k ==> j in users - {k} && (users - {k})[j] == users[j];
      CountOf(users[k]) + TotalDownloads(users - {k})
  }

  /** The total does not depend on the order users are summed in: any one of them can be taken out first. */
  lemma {:induction false} TotalDownloadsRemove(users: map<string, UserRecord>, key: string)
    requires key in users
    ensures TotalDownloads(users) == CountOf(users[key]) + TotalDownloads(users - {key})
    decreases |users|
  {
    var k :| k in users && TotalDownloads(users) == CountOf(users[k]) + TotalDownloads(users - {k});
    if k != key {
      var rest := users - {k};
      assert |rest| < |users| by { assert rest.Keys < users.Keys; }
      TotalDownloadsRemove(rest, key);
      var restKey := users - {key};
      assert |restKey| < |users| by { assert restKey.Keys < users.Keys; }
      TotalDownloadsRemove(restKey, k);
      assert rest - {key} == restKey - {k};
    }
  }

  /** Replacing one user's record changes the total by the difference of the two counts. */
  lemma TotalDownloadsUpdate(users: map<string, UserRecord>, key: string, u: UserRecord)
    ensures key in users ==> TotalDownloads(users[key := u]) + CountOf(users[key]) == TotalDownloads(users) + CountOf(u)
    ensures key !in users ==> TotalDownloads(users[key := u]) == TotalDownloads(users) + CountOf(u)
  {
    var updated := users[key := u];
    TotalDownloadsRemove(updated, key);
    assert updated - {key} == users - {key};
    if key in users {
      TotalDownloadsRemove(users, key);
    } else {
      assert users - {key} == users;
    }
  }

  /** `set_user_lang` never changes the total downloads: a new user starts at 0. */
  lemma WithLangKeepsTotal(d: Data, key: string, lang: string, now: string)
    ensures TotalDownloads(WithLang(d, key, lang, now).users) == TotalDownloads(d.users)
  {
    var r := WithLang(d, key, lang, now);
    TotalDownloadsUpdate(d.users, key, r.users[key]);
    assert r.users == d.users[key := r.users[key]];
  }

  /** A saved download raises the total by exactly 1 when the user is known, and leaves it alone otherwise. */
  lemma AfterDownloadTotal(d: Data, key: string, lang: string)
    requires d.globalStats.Some? && AfterDownload(d, key, lang).Some?
    ensures TotalDownloads(AfterDownload(d, key, lang).value.users) == TotalDownloads(d.users) + (if key in d.users then 1 else 0)
  {
    var r := AfterDownload(d, key, lang).value;
    if key in d.users {
      TotalDownloadsUpdate(d.users, key, r.users[key]);
      assert r.users == d.users[key := r.users[key]];
    } else {
      assert r.users == d.users;
    }
  }

  /**
   * The per-user counts and the per-language counters agree: the sum of the
   * users' counts is the sum of the Arabic and English downloads.
   */
  ghost predicate Balanced(d: Data)
  {
    d.globalStats.Some? && TotalDownloads(d.users) == d.globalStats.value.arDownloads + d.globalStats.value.enDownloads
  }

  /** A fresh document is balanced. */
  lemma FreshBalanced(now: string)
    ensures Balanced(Load(None, now))
  {
  }

  /** Setting a language keeps the counters balanced. */
  lemma WithLangKeepsBalance(d: Data, key: string, lang: string, now: string)
    requires Balanced(d)
    ensures Balanced(WithLang(d, key, lang, now))
  {
    WithLangKeepsTotal(d, key, lang, now);
  }

  /**
   * A saved download by a known user in Arabic or English keeps the counters
   * balanced, whether or not `lang` is still the user's stored language.
   */
  lemma DownloadKeepsBalance(d: Data, key: string, lang: string)
    requires Balanced(d) && key in d.users
    requires lang == "ar" || lang == "en"
    requires AfterDownload(d, key, lang).Some?
    ensures Balanced(AfterDownload(d, key, lang).value)
  {
    AfterDownloadTotal(d, key, lang);
  }

  /**
   * The counters do not stay balanced in general. A download by a user with
   * no record in `users` goes into a global counter but into no user's count.
   * In the bot such a user's language is always "en" (the default of
   * `get_user_lang`), so this is what the bot does; the lemma holds for "ar"
   * too. The second case, a known user with a language other than "ar" or
   * "en", is a property of the bookkeeping block alone and is not reachable
   * from the bot: `download_media` looks up its texts in that language
   * before downloading and fails there first.
   */
  lemma DownloadCanUnbalance(d: Data, key: string, lang: string)
    requires Balanced(d)
    requires (key !in d.users && (lang == "ar" || lang == "en")) || (key in d.users && d.users[key].downloadCount.Some? && lang != "ar" && lang != "en")
    ensures !Balanced(AfterDownload(d, key, lang).value)
  {
    AfterDownloadTotal(d, key, lang);
  }

  /** Python truthiness of a record: an empty dictionary is false. */
  predicate IsEmptyRecord(u: UserRecord)
  {
    u.firstSeen.None? && u.lang.None? && u.downloadCount.None?
  }

  /** `/userinfo`: the record under the given key, or None when absent or empty (`if user_data:`). */
  function Lookup(users: map<string, UserRecord>, target: string): (r: Option<UserRecord>)
    ensures r.Some? <==> target in users && !IsEmptyRecord(users[target])
    ensures r.Some? ==> r.value == users[target]
  {
    if target in users && !IsEmptyRecord(users[target]) then Some(users[target]) else None
  }

  /** Every user `set_user_lang` has touched is found by `/userinfo` under `str(user_id)`. */
  lemma LookupAfterWithLang(d: Data, userId: int, lang: string, now: string)
    ensures Lookup(WithLang(d, Key(userId), lang, now).users, Decimal.Str(userId)).Some?
    ensures Lookup(WithLang(d, Key(userId), lang, now).users, Decimal.Str(userId)).value.lang == Some(lang)
  {
  }
}
