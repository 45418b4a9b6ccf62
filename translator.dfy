/** The logic of `translate_text` (app.py lines 77-137): the blank-text
    short cut, the minimum spacing between translation requests kept over
    the session's timestamp, the signed request and the mapping from the
    translation service's reply to the text shown.  The clock, the sleep,
    the random salt, MD5 and the HTTP exchange are inputs. */
module Translator {
  import opened Wrappers
  import opened PyText

  /** The service credentials, left empty in the application as published. */
  const AppId := ""
  const SecretKey := ""
  /** The service's medical domain. */
  const MedicalDomain := "senimed"
  const ApiPath := "/api/trans/vip/fieldtranslate"
  /** Seconds that must separate two requests. */
  const MinSpacing: real := 1.1
  /** What a failed translation shows before the original text. */
  const FailurePrefix := "[翻译失败] "

  /** `random.randint(32768, 65536)`: both ends included. */
  const MinSalt := 32768
  const MaxSalt := 65536
  type Salt = n: int | MinSalt <= n <= MaxSalt witness MinSalt

  // ------------------------------------------------------------ the reply

  /** One element of the reply's `trans_result`: an object carrying a string
      `dst`, or anything else (no `dst`, a `dst` that is not a string, an
      element that is not an object), which makes the join raise. */
  datatype Item = Dst(dst: string) | Malformed

  /** The value under `trans_result`: something iterable, seen as the
      sequence of its elements, or a value that cannot be iterated. */
  datatype Translations = Items(items: seq<Item>) | NotIterable

  /** The decoded reply: an object, with or without `trans_result` and
      with or without `error_code`, or some other JSON value. */
  datatype Reply = Object(transResult: Option<Translations>, hasErrorCode: bool) | NotObject

  /** One round trip to the service: a decoded reply, or an exception
      (connection, HTTP, decoding). */
  datatype Exchange = Answered(reply: Reply) | Raised

  predicate AllDst(items: seq<Item>) {
    forall i :: 0 <= i < |items| ==> items[i].Dst?
  }

  function DstTexts(items: seq<Item>): (r: seq<string>)
    requires AllDst(items)
    ensures |r| == |items|
    ensures forall i :: 0 <= i < |items| ==> r[i] == items[i].dst
  {
    if items == [] then [] else [items[0].dst] + DstTexts(items[1..])
  }

  /** The exchange yields a translation: `trans_result` is present and every
      one of its elements has a string `dst`. */
  predicate Translated(x: Exchange) {
    x.Answered? && x.reply.Object? && x.reply.transResult.Some?
    && x.reply.transResult.value.Items? && AllDst(x.reply.transResult.value.items)
  }

  /** The `dst` texts of a translated exchange, in reply order. */
  function Lines(x: Exchange): seq<string>
    requires Translated(x)
  {
    DstTexts(x.reply.transResult.value.items)
  }

  /** Lines 127, 130 and 134: what a failed call returns.  It can never be
      mistaken for the untranslated text. */
  function Fallback(text: string): (r: string)
    ensures |r| == |FailurePrefix| + |text|
    ensures r != text
  {
    FailurePrefix + text
  }

  /** Lines 110-134: the text `translate_text` returns for a non-blank
      `text` once the exchange is over.  Every path that does not end in
      the join, including every raised exception, returns the fallback. */
  function ResponseText(text: string, x: Exchange): (r: string)
    ensures Translated(x) ==> r == JoinLines(Lines(x))
    ensures !Translated(x) ==> r == Fallback(text)
  {
    match x
    case Raised => Fallback(text)
    case Answered(reply) =>
      match reply
      case NotObject => Fallback(text)
      case Object(transResult, hasErrorCode) =>
        match transResult
        case Some(Items(items)) =>
          if AllDst(items) then JoinLines(DstTexts(items)) else Fallback(text)
        case Some(NotIterable) => Fallback(text)
        case None => Fallback(text)
  }

  /** `trans_result` is looked at before `error_code`: an object carrying
      both is read as a translation, and `error_code` only matters when
      `trans_result` is absent, where it gives the fallback like any other
      shape does. */
  lemma TransResultFirst(text: string, t: Option<Translations>)
    ensures ResponseText(text, Answered(Object(t, true))) == ResponseText(text, Answered(Object(t, false)))
    ensures t.None? ==> ResponseText(text, Answered(Object(t, true))) == Fallback(text)
  {
  }

  /** A failure shows the original text after the prefix, so it is never
      empty and the original can be read back from it. */
  lemma FallbackKeepsText(text: string)
    ensures Fallback(text) != ""
    ensures Fallback(text)[..|FailurePrefix|] == FailurePrefix
    ensures Fallback(text)[|FailurePrefix|..] == text
  {
  }

  /** When no `dst` holds a line break, the lines of the translation are the
      `dst` texts, one each. */
  lemma LinesRecoverable(text: string, x: Exchange)
    requires Translated(x) && |Lines(x)| >= 1
    requires forall i :: 0 <= i < |Lines(x)| ==> '\n' !in Lines(x)[i]
    ensures SplitLines(ResponseText(text, x)) == Lines(x)
  {
    SplitJoinLines(Lines(x));
  }

  // ------------------------------------------------------------- throttle

  /** Lines 83-87: how long to sleep when the clock reads `now` and the last
      request started at `last`: until `last + MinSpacing`, or not at all. */
  function Wait(last: real, now: real): (w: real)
    ensures w >= 0.0
    ensures now - last < MinSpacing ==> now + w == last + MinSpacing
    ensures now - last >= MinSpacing ==> w == 0.0
  {
    var elapsed := now - last;
    if elapsed < MinSpacing then MinSpacing - elapsed else 0.0
  }

  /** The smallest wait that still keeps the spacing. */
  lemma WaitLeast(last: real, now: real, w: real)
    requires w >= 0.0 && now + w >= last + MinSpacing
    ensures Wait(last, now) <= w
  {
  }

  // -------------------------------------------------------------- request

  /** Line 93: the string whose MD5 digest signs the request, the fields
      written one after another without separators. */
  function PreImage(text: string, salt: Salt): (r: string)
    ensures |r| == |AppId| + |text| + 5 + |MedicalDomain| + |SecretKey|
  {
    SaltWidth(salt);
    AppId + text + Decimal(salt) + MedicalDomain + SecretKey
  }

  /** Every salt is written with exactly five digits. */
  lemma SaltWidth(salt: Salt)
    ensures |Decimal(salt)| == 5
  {
    assert Pow10(4) == 10000;
    DecimalLength(salt, 4);
  }

  /** Because the salt always takes five characters, the pre-image gives
      back both the text and the salt. */
  lemma PreImageInjective(t1: string, s1: Salt, t2: string, s2: Salt)
    requires PreImage(t1, s1) == PreImage(t2, s2)
    ensures t1 == t2 && s1 == s2
  {
    SaltWidth(s1);
    SaltWidth(s2);
    PreImageParts(t1, s1);
    PreImageParts(t2, s2);
    SameLengthParts(t1, Decimal(s1), t2, Decimal(s2), MedicalDomain);
    DecimalInjective(s1, s2);
  }

  /** With empty credentials the pre-image is the text, the salt and the domain. */
  lemma PreImageParts(text: string, salt: Salt)
    ensures PreImage(text, salt) == text + Decimal(salt) + MedicalDomain
  {
    assert AppId + text == text;
  }

  /** Two ways of writing a string as three parts, whose last two parts have
      equal lengths, are the same way. */
  lemma SameLengthParts(a1: string, b1: string, a2: string, b2: string, c: string)
    requires a1 + b1 + c == a2 + b2 + c && |b1| == |b2|
    ensures a1 == a2 && b1 == b2
  {
    var p := a1 + b1 + c;
    assert a1 == p[..|a1|];
    assert a2 == p[..|a2|];
    assert b1 == p[|a1|..|a1| + |b1|];
    assert b2 == p[|a2|..|a2| + |b2|];
  }

  /** The query parameters of the request. */
  datatype Field = AppIdField | Query | From | To | SaltField | Domain | Sign

  /** The name each parameter goes by on the wire. */
  function Name(f: Field): string {
    match f
    case AppIdField => "appid"
    case Query => "q"
    case From => "from"
    case To => "to"
    case SaltField => "salt"
    case Domain => "domain"
    case Sign => "sign"
  }

  /** The GET request, its query parameters as (wire name, value) pairs in
      the order lines 98-106 list them; their URL encoding is not modelled. */
  datatype Request = Request(path: string, params: seq<(string, string)>)

  function BuildRequest(text: string, fromLang: string, toLang: string, salt: Salt, md5: string -> string): (r: Request)
    ensures r.path == ApiPath
    ensures |r.params| == 7
    ensures forall i, j :: 0 <= i < j < |r.params| ==> r.params[i].0 != r.params[j].0
  {
    Request(ApiPath, [
      (Name(AppIdField), AppId),
      (Name(Query), text),
      (Name(From), fromLang),
      (Name(To), toLang),
      (Name(SaltField), Decimal(salt)),
      (Name(Domain), MedicalDomain),
      (Name(Sign), md5(PreImage(text, salt)))])
  }

  /** The value of the first parameter sent under the name of `f`. */
  function Param(params: seq<(string, string)>, f: Field): (r: Option<string>)
    ensures r.None? <==> forall i :: 0 <= i < |params| ==> params[i].0 != Name(f)
  {
    if params == [] then None
    else if params[0].0 == Name(f) then Some(params[0].1)
    else Param(params[1..], f)
  }

  /** The request carries every parameter, each under its own name. */
  lemma RequestFields(text: string, fromLang: string, toLang: string, salt: Salt, md5: string -> string)
    ensures BuildRequest(text, fromLang, toLang, salt, md5).path == ApiPath
    ensures var ps := BuildRequest(text, fromLang, toLang, salt, md5).params;
      && Param(ps, AppIdField) == Some(AppId)
      && Param(ps, Query) == Some(text)
      && Param(ps, From) == Some(fromLang)
      && Param(ps, To) == Some(toLang)
      && Param(ps, SaltField) == Some(Decimal(salt))
      && Param(ps, Domain) == Some(MedicalDomain)
      && Param(ps, Sign) == Some(md5(PreImage(text, salt)))
  {
    var ps := BuildRequest(text, fromLang, toLang, salt, md5).params;
    ParamAt(ps, AppIdField, 0);
    ParamAt(ps, Query, 1);
    ParamAt(ps, From, 2);
    ParamAt(ps, To, 3);
    ParamAt(ps, SaltField, 4);
    ParamAt(ps, Domain, 5);
    ParamAt(ps, Sign, 6);
  }

  /** Whoever holds the secret key can recompute the signature from the
      request's own fields. */
  lemma ProviderRecomputesSign(text: string, fromLang: string, toLang: string, salt: Salt, md5: string -> string)
    ensures var ps := BuildRequest(text, fromLang, toLang, salt, md5).params;
      && Param(ps, AppIdField).Some? && Param(ps, Query).Some? && Param(ps, SaltField).Some?
      && Param(ps, Domain).Some? && Param(ps, Sign).Some?
      && Param(ps, Sign).value == md5(Param(ps, AppIdField).value + Param(ps, Query).value
                                      + Param(ps, SaltField).value + Param(ps, Domain).value + SecretKey)
  {
    RequestFields(text, fromLang, toLang, salt, md5);
  }

  /** The lookup finds the first parameter of its kind. */
  lemma {:induction false} ParamAt(params: seq<(string, string)>, f: Field, i: nat)
    requires i < |params| && params[i].0 == Name(f)
    requires forall k :: 0 <= k < i ==> params[k].0 != Name(f)
    ensures Param(params, f) == Some(params[i].1)
  {
    if i > 0 {
      ParamAt(params[1..], f, i - 1);
    }
  }

  /** No two parameters share a wire name. */
  lemma NamesDistinct(f: Field, g: Field)
    requires f != g
    ensures Name(f) != Name(g)
  {
  }

  // ----------------------------------------------------------------- call

  /** What the outside world supplies to one call: the clock before the
      sleep (line 83) and after it (line 89), the salt and the exchange. */
  datatype Call = Call(now: real, later: real, salt: Salt, exchange: Exchange)

  /** What one call does: the text it returns, the timestamp it leaves, how
      long it slept and the request it sent, if any. */
  datatype Outcome = Outcome(result: string, last: real, slept: real, request: Option<Request>)

  /** One call of `translate_text(text, fromLang, toLang)` when the session's
      timestamp is `last`. */
  function Translate(last: real, text: string, fromLang: string, toLang: string, c: Call, md5: string -> string): (o: Outcome)
    ensures AllSpace(text) ==> o == Outcome("", last, 0.0, None)
    ensures !AllSpace(text) ==>
              && o.slept == Wait(last, c.now) && o.last == c.later
              && o.request == Some(BuildRequest(text, fromLang, toLang, c.salt, md5))
              && o.result == ResponseText(text, c.exchange)
  {
    if AllSpace(text) then Outcome("", last, 0.0, None)
    else Outcome(ResponseText(text, c.exchange), c.later, Wait(last, c.now),
                 Some(BuildRequest(text, fromLang, toLang, c.salt, md5)))
  }

  /** The clock did not run backwards and the sleep lasted at least as long
      as asked. */
  predicate SleptEnough(last: real, c: Call) {
    c.later >= c.now + Wait(last, c.now)
  }

  /** A request starts at least `MinSpacing` after the previous one. */
  lemma SpacedAfterLast(last: real, text: string, c: Call, md5: string -> string)
    requires !AllSpace(text) && SleptEnough(last, c)
    ensures Translate(last, text, "en", "zh", c, md5).last >= last + MinSpacing
  {
  }

  /** The clear button's reset of the timestamp to 0 means the next request
      is sent without waiting, however recently the previous one went out. */
  lemma ResetSkipsWait(now: real)
    requires now >= MinSpacing
    ensures Wait(0.0, now) == 0.0
  {
  }

  /** A blank text returns "" and touches neither the timestamp nor the
      network, in whatever state and with whatever world. */
  lemma BlankUntouched(last: real, text: string, c: Call, md5: string -> string)
    requires Strip(text) == ""
    ensures Translate(last, text, "en", "zh", c, md5) == Outcome("", last, 0.0, None)
  {
    BlankIff(text);
  }

  // ---------------------------------------------------------------- trace

  /** One call in a run: the text and the world it meets. */
  datatype Job = Job(text: string, call: Call)

  /** What a run of calls does: the results in order and the final timestamp. */
  datatype Batch = Batch(results: seq<string>, last: real)

  /** The calls of `jobs`, one after another from timestamp `last`, each
      with the default languages. */
  function Run(last: real, jobs: seq<Job>, md5: string -> string): (b: Batch)
    ensures |b.results| == |jobs|
    decreases |jobs|
  {
    if jobs == [] then Batch([], last)
    else
      var o := Translate(last, jobs[0].text, "en", "zh", jobs[0].call, md5);
      var rest := Run(o.last, jobs[1..], md5);
      Batch([o.result] + rest.results, rest.last)
  }

  /** The start time of every request a run sends, in order; the timestamp
      the run leaves is the start of its last request, or the one it found
      when it sent none. */
  function Starts(last: real, jobs: seq<Job>, md5: string -> string): (s: seq<real>)
    ensures |s| <= |jobs|
    ensures s == [] ==> Run(last, jobs, md5).last == last
    ensures s != [] ==> Run(last, jobs, md5).last == s[|s| - 1]
    decreases |jobs|
  {
    if jobs == [] then []
    else
      var o := Translate(last, jobs[0].text, "en", "zh", jobs[0].call, md5);
      var rest := Starts(o.last, jobs[1..], md5);
      if AllSpace(jobs[0].text) then rest else [o.last] + rest
  }

  /** Every call of the run slept long enough. */
  predicate Honest(last: real, jobs: seq<Job>, md5: string -> string)
    decreases |jobs|
  {
    jobs == [] ||
    ((AllSpace(jobs[0].text) || SleptEnough(last, jobs[0].call))
     && Honest(Translate(last, jobs[0].text, "en", "zh", jobs[0].call, md5).last, jobs[1..], md5))
  }

  /** Lines 83-89 keep requests apart: on an honest clock the first request
      of a run starts at least `MinSpacing` after the timestamp it found,
      and each later one at least `MinSpacing` after the one before. */
  lemma {:induction false} SpacedStarts(last: real, jobs: seq<Job>, md5: string -> string)
    requires Honest(last, jobs, md5)
    ensures var s := Starts(last, jobs, md5);
      && (s != [] ==> s[0] >= last + MinSpacing)
      && forall i :: 0 <= i < |s| - 1 ==> s[i + 1] >= s[i] + MinSpacing
    decreases |jobs|
  {
    if jobs != [] {
      var o := Translate(last, jobs[0].text, "en", "zh", jobs[0].call, md5);
      SpacedStarts(o.last, jobs[1..], md5);
      if !AllSpace(jobs[0].text) {
        SpacedAfterLast(last, jobs[0].text, jobs[0].call, md5);
      }
    }
  }
}
