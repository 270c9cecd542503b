/**
 * The data file `bot_data.json` as the bot's one piece of mutable state.
 * Every handler loads the whole document, changes it and, when it changes
 * anything, writes the whole document back.
 */
module BotFile {
  import opened Wrappers
  import opened BotData
  import CallbackData

  class DataFile {
    /** What the file holds; `None` when it does not exist or its text is not valid JSON. */
    var contents: Option<Data>

    constructor (file: Option<Data>)
      ensures contents == file
    {
      contents := file;
    }

    /** `get_user_lang`: load and read the user's language; the file is not changed. */
    method GetUserLang(userId: int, now: string) returns (lang: string)
      ensures lang == LangOf(Load(contents, now).users, Key(userId))
    {
      var data := Load(contents, now);
      lang := DefaultLang;
      var key := Key(userId);
      if key in data.users && data.users[key].lang.Some? {
        lang := data.users[key].lang.value;
      }
    }

    /** `set_user_lang`: load, create or update the user's record, save. */
    method SetUserLang(userId: int, lang: string, now: string)
      modifies this
      ensures contents == Some(WithLang(Load(old(contents), now), Key(userId), lang, now))
    {
      var data := Load(contents, now);
      var key := Key(userId);
      var users := data.users;
      if key !in users {
        users := users[key := UserRecord(Some(now), Some(lang), Some(0))];
      } else {
        users := users[key := users[key].(lang := Some(lang))];
      }
      contents := Some(data.(users := users));
    }

    /** `/start`: registers the user with their current (or the default) language. */
    method Start(userId: int, now: string)
      modifies this
      ensures contents == Some(Registered(Load(old(contents), now), Key(userId), now))
    {
      var lang := GetUserLang(userId, now);
      SetUserLang(userId, lang, now);
    }

    /**
     * A language button press: data not matching `^lang_` is not dispatched
     * to the handler and changes nothing; otherwise the parsed language is stored.
     */
    method SelectLanguage(userId: int, callback: string, now: string) returns (handled: bool)
      modifies this
      ensures handled <==> CallbackData.LangFromCallback(callback).Some?
      ensures handled ==> contents == Some(WithLang(Load(old(contents), now), Key(userId), CallbackData.LangFromCallback(callback).value, now))
      ensures !handled ==> contents == old(contents)
    {
      var parsed := CallbackData.LangFromCallback(callback);
      handled := parsed.Some?;
      if handled {
        SetUserLang(userId, parsed.value, now);
      }
    }

    /**
     * The bookkeeping of `download_media` after the file was sent: `lang` is
     * the language read at the start of the request, which is "ar" or "en"
     * because any other language fails the handler's first text lookup before
     * the download starts. The counter of that language and the user's own
     * count, when the user is known, go up by one; when the record lacks a
     * count the update fails and nothing is saved (`saved` is false).
     */
    method RecordDownload(userId: int, lang: string, now: string) returns (saved: bool)
      requires lang == "ar" || lang == "en"
      modifies this
      ensures saved <==> AfterDownload(Load(old(contents), now), Key(userId), lang).Some?
      ensures saved ==> contents == AfterDownload(Load(old(contents), now), Key(userId), lang)
      ensures !saved ==> contents == old(contents)
    {
      var data := Load(contents, now);
      var stats := data.globalStats.value;
      if lang == "ar" {
        stats := stats.(arDownloads := stats.arDownloads + 1);
      } else if lang == "en" {
        stats := stats.(enDownloads := stats.enDownloads + 1);
      }
      var key := Key(userId);
      var users := data.users;
      if key in users {
        var user := users[key];
        if user.downloadCount.None? {
          saved := false;
          return;
        }
        users := users[key := user.(downloadCount := Some(user.downloadCount.value + 1))];
      }
      contents := Some(data.(globalStats := Some(stats), users := users));
      saved := true;
    }

    /**
     * `/stats`: the number of users, the sum of their download counts (a
     * missing count read as 0) and the two language counters. Reads only.
     */
    method Stats(now: string) returns (totalUsers: nat, totalDownloads: nat, arDownloads: nat, enDownloads: nat)
      ensures totalUsers == |Load(contents, now).users|
      ensures totalDownloads == TotalDownloads(Load(contents, now).users)
      ensures arDownloads == Load(contents, now).globalStats.value.arDownloads
      ensures enDownloads == Load(contents, now).globalStats.value.enDownloads
    {
      var data := Load(contents, now);
      totalUsers := |data.users|;
      totalDownloads := 0;
      var rest := data.users;
      while rest != map[]
        invariant totalDownloads + TotalDownloads(rest) == TotalDownloads(data.users)
        decreases |rest|
      {
        var key :| key in rest;
        TotalDownloadsRemove(rest, key);
        totalDownloads := totalDownloads + CountOf(rest[key]);
        assert (rest - {key}).Keys < rest.Keys;
        rest := rest - {key};
      }
      arDownloads := data.globalStats.value.arDownloads;
      enDownloads := data.globalStats.value.enDownloads;
    }

    /** `/userinfo <id>`: the stored record under the id as typed, if present and not empty. Reads only. */
    method UserInfo(target: string, now: string) returns (info: Option<UserRecord>)
      ensures info == Lookup(Load(contents, now).users, target)
    {
      var users := Load(contents, now).users;
      info := None;
      if target in users && !IsEmptyRecord(users[target]) {
        info := Some(users[target]);
      }
    }

    /**
     * `/broadcast`: one send attempt per stored user id, in `attempted`
     * order; `delivers` says which sends succeed. A failure is counted and
     * the loop goes on. Reads only.
     */
    method Broadcast(now: string, delivers: string -> bool) returns (sent: nat, failed: nat, attempted: seq<string>)
      ensures multiset(attempted) == multiset(Load(contents, now).users.Keys)
      ensures sent + failed == |Load(contents, now).users|
      ensures sent == |Succeeding(Load(contents, now).users.Keys, delivers)|
      ensures failed == |Failing(Load(contents, now).users.Keys, delivers)|
    {
      sent, failed, attempted := SendToAll(Load(contents, now).users.Keys, delivers);
    }
  }

  /**
   * The loop of `/broadcast` over the user ids: one attempt per id, a failed
   * attempt counted and the loop continued.
   */
  method SendToAll(ids: set<string>, delivers: string -> bool) returns (sent: nat, failed: nat, attempted: seq<string>)
    ensures multiset(attempted) == multiset(ids)
    ensures sent + failed == |ids|
    ensures sent == |Succeeding(ids, delivers)|
    ensures failed == |Failing(ids, delivers)|
  {
    sent, failed, attempted := 0, 0, [];
    var remaining := ids;
    ghost var done: set<string> := {};
    while remaining != {}
      invariant done !! remaining && done + remaining == ids
      invariant multiset(attempted) == multiset(done)
      invariant sent == |Succeeding(done, delivers)|
      invariant failed == |Failing(done, delivers)|
      decreases |remaining|
    {
      var id :| id in remaining;
      TallyStep(done, id, attempted, delivers);
      if delivers(id) {
        sent := sent + 1;
      } else {
        failed := failed + 1;
      }
      attempted := attempted + [id];
      done := done + {id};
      remaining := remaining - {id};
    }
    Tally(ids, delivers);
  }

  /** The user ids whose send succeeds. */
  ghost function Succeeding(ids: set<string>, delivers: string -> bool): set<string>
  {
    set id | id in ids && delivers(id)
  }

  /** The user ids whose send fails. */
  ghost function Failing(ids: set<string>, delivers: string -> bool): set<string>
  {
    set id | id in ids && !delivers(id)
  }

  /** One more attempt adds its id once to the attempts and to exactly one of the two tallies. */
  lemma TallyStep(done: set<string>, id: string, attempted: seq<string>, delivers: string -> bool)
    requires id !in done
    ensures multiset(attempted) == multiset(done) ==> multiset(attempted + [id]) == multiset(done + {id})
    ensures |Succeeding(done + {id}, delivers)| == |Succeeding(done, delivers)| + (if delivers(id) then 1 else 0)
    ensures |Failing(done + {id}, delivers)| == |Failing(done, delivers)| + (if delivers(id) then 0 else 1)
  {
    if delivers(id) {
      assert Succeeding(done + {id}, delivers) == Succeeding(done, delivers) + {id};
      assert Failing(done + {id}, delivers) == Failing(done, delivers);
    } else {
      assert Succeeding(done + {id}, delivers) == Succeeding(done, delivers);
      assert Failing(done + {id}, delivers) == Failing(done, delivers) + {id};
    }
  }

  /** Every id is in exactly one of the two tallies. */
  lemma Tally(ids: set<string>, delivers: string -> bool)
    ensures |Succeeding(ids, delivers)| + |Failing(ids, delivers)| == |ids|
  {
    assert Succeeding(ids, delivers) + Failing(ids, delivers) == ids;
    assert Succeeding(ids, delivers) !! Failing(ids, delivers);
  }
}
