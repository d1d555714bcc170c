/**
 * The renewal endpoint of the figpack API: it accepts the URL of a figure
 * under https://figures.figpack.org/figures/default/, reads the figure's
 * figpack.json, and moves an expiration that is less than a week away to
 * one week from now.
 *
 * Fetching figpack.json, the clock and the upload are inputs: the fetched
 * expiration (or a failed fetch), the current time in milliseconds, and
 * whether the upload succeeded. Dates are milliseconds since the epoch;
 * their ISO text form is not modelled.
 */
module FigureRenewal {
  import opened Common

  const ExpectedPrefix: string := "https://figures.figpack.org/figures/default/"
  const FiguresOrigin: string := "https://figures.figpack.org/"
  const Week: int := 7 * 24 * 60 * 60 * 1000

  datatype UrlValidation = UrlValidation(valid: bool, figureId: Option<string>, baseUrl: Option<string>)

  const InvalidUrl := UrlValidation(false, None, None)

  /** `validateFigureUrl`: the figure id is the text between the prefix and the next '/'. */
  function ValidateFigureUrl(url: string): (v: UrlValidation)
    ensures !StartsWith(url, ExpectedPrefix) ==> v == InvalidUrl
    ensures v.valid ==> v.figureId.Some? && |v.figureId.value| > 0 && v.baseUrl.Some? && |url| > |ExpectedPrefix|
  {
    if !StartsWith(url, ExpectedPrefix) then InvalidUrl
    else
      var afterPrefix := url[|ExpectedPrefix|..];
      match Find(afterPrefix, "/")
      case None => InvalidUrl
      case Some(slashIndex) =>
        if slashIndex == 0 then InvalidUrl
        else
          var figureId := afterPrefix[..slashIndex];
          UrlValidation(|figureId| > 0, Some(figureId), Some(ExpectedPrefix + figureId))
  }

  /**
   * A valid URL names a non-empty figure id without '/', the URL continues
   * with that id and a '/', and the base URL is the prefix followed by the id.
   */
  lemma ValidUrlSpec(url: string)
    requires ValidateFigureUrl(url).valid
    ensures var id := ValidateFigureUrl(url).figureId.value;
            && |id| > 0 && '/' !in id
            && ValidateFigureUrl(url).baseUrl == Some(ExpectedPrefix + id)
            && StartsWith(url, ExpectedPrefix + id + "/")
  {
    var afterPrefix := url[|ExpectedPrefix|..];
    var j := Find(afterPrefix, "/").value;
    FindChar(afterPrefix, '/');
    var id := afterPrefix[..j];
    assert url[..|ExpectedPrefix + id + "/"|] == ExpectedPrefix + id + "/" by {
      assert url == ExpectedPrefix + afterPrefix;
      assert afterPrefix[..j + 1] == id + "/";
    }
  }

  /** Every URL of the form prefix, id, '/', rest is valid, with that id. */
  lemma FigureUrlValid(figureId: string, rest: string)
    requires |figureId| > 0 && '/' !in figureId
    ensures ValidateFigureUrl(ExpectedPrefix + figureId + "/" + rest)
            == UrlValidation(true, Some(figureId), Some(ExpectedPrefix + figureId))
  {
    var url := ExpectedPrefix + figureId + "/" + rest;
    assert StartsWith(url, ExpectedPrefix) by {
      assert url[..|ExpectedPrefix|] == ExpectedPrefix;
    }
    var afterPrefix := url[|ExpectedPrefix|..];
    assert afterPrefix == figureId + ['/'] + rest;
    FindAfterFree(figureId, '/', rest);
    assert afterPrefix[..|figureId|] == figureId;
  }

  /** A URL with nothing between the prefix and the next '/' is invalid, and so is one without a '/' after it. */
  lemma MissingIdInvalid(rest: string)
    ensures !ValidateFigureUrl(ExpectedPrefix + "/" + rest).valid
    ensures '/' !in rest ==> !ValidateFigureUrl(ExpectedPrefix + rest).valid
  {
    var url := ExpectedPrefix + "/" + rest;
    assert url[..|ExpectedPrefix|] == ExpectedPrefix;
    assert url[|ExpectedPrefix|..] == [] + ['/'] + rest;
    FindAfterFree([], '/', rest);
    var bare := ExpectedPrefix + rest;
    assert bare[..|ExpectedPrefix|] == ExpectedPrefix;
    assert bare[|ExpectedPrefix|..] == rest;
    FindChar(rest, '/');
  }

  // ---------------------------------------------------------------------
  // The handler
  // ---------------------------------------------------------------------

  /** figpack.json's `expiration`: falsy (missing, empty, 0, null), a date that does not parse, or a date. */
  datatype Expiration = Falsy | Unparsable | At(ms: int)

  /** The rewritten figpack.json that is uploaded: its key in the bucket and its two new dates. */
  datatype Upload = Upload(fileKey: string, expiration: int, renewalTimestamp: int)

  /** The handler's messages. */
  datatype Message =
    | MethodNotAllowed | MissingFigureUrl | InvalidFigureUrl | FigureNotFound
    | NoExpirationDate | AlreadyFarEnough | UpdateFailed | Renewed

  /** The text each message is sent with. */
  function MessageText(m: Message): string
  {
    match m
    case MethodNotAllowed => "Method not allowed"
    case MissingFigureUrl => "Missing required field: figureUrl"
    case InvalidFigureUrl => "Invalid figure URL. Must be a valid figures.figpack.org figpack URL."
    case FigureNotFound => "Figure not found or figpack.json is not accessible"
    case NoExpirationDate => "Figure does not have an expiration date"
    case AlreadyFarEnough => "Figure expiration is already 1 week or more in the future"
    case UpdateFailed => "Failed to update figure expiration"
    case Renewed => "Figure renewed successfully"
  }

  datatype Reply =
    | Preflight
    | Answer(status: nat, success: bool, message: Message, newExpiration: Option<int>)

  datatype Outcome = Outcome(reply: Reply, upload: Option<Upload>)

  function Failure(status: nat, message: Message): Outcome
  {
    Outcome(Answer(status, false, message, None), None)
  }

  /** `uploadUpdatedFigpackJson`'s bucket key: the destination URL without the origin. */
  function FileKey(figureId: string): string
  {
    var destinationUrl := ExpectedPrefix + figureId + "/figpack.json";
    destinationUrl[|FiguresOrigin|..]
  }

  lemma FileKeySpec(figureId: string)
    ensures FileKey(figureId) == "figures/default/" + figureId + "/figpack.json"
  {
    assert ExpectedPrefix == FiguresOrigin + "figures/default/";
    var destinationUrl := ExpectedPrefix + figureId + "/figpack.json";
    assert destinationUrl == FiguresOrigin + ("figures/default/" + figureId + "/figpack.json");
  }

  /**
   * The handler, step by step in the source's order. `fetched` is `None`
   * when figpack.json could not be fetched.
   */
  function Renew(httpMethod: string, figureUrl: Option<string>, fetched: Option<Expiration>, now: int, uploadOk: bool): Outcome
  {
    if httpMethod == "OPTIONS" then Outcome(Preflight, None)
    else if httpMethod != "POST" then Failure(405, MethodNotAllowed)
    else if figureUrl.None? || figureUrl.value == "" then Failure(400, MissingFigureUrl)
    else RenewFigure(ValidateFigureUrl(figureUrl.value), fetched, now, uploadOk)
  }

  /**
   * The handler from the URL check on, given the URL's validation. A `Date`
   * that does not parse compares false with everything, so such an
   * expiration is renewed.
   */
  function RenewFigure(urlValidation: UrlValidation, fetched: Option<Expiration>, now: int, uploadOk: bool): Outcome
  {
    if !urlValidation.valid || urlValidation.figureId.None? || urlValidation.figureId.value == ""
       || urlValidation.baseUrl.None? || urlValidation.baseUrl.value == "" then
      Failure(400, InvalidFigureUrl)
    else if fetched.None? then Failure(404, FigureNotFound)
    else if fetched.value.Falsy? then Failure(400, NoExpirationDate)
    else
      var oneWeekFromNow := now + Week;
      if fetched.value.At? && fetched.value.ms >= oneWeekFromNow then
        Failure(400, AlreadyFarEnough)
      else
        var upload := Some(Upload(FileKey(urlValidation.figureId.value), oneWeekFromNow, now));
        if !uploadOk then Outcome(Answer(500, false, UpdateFailed, None), upload)
        else Outcome(Answer(200, true, Renewed, Some(oneWeekFromNow)), upload)
  }

  /** Renewal is due when the expiration is less than a week away, or does not parse. */
  predicate RenewalDue(e: Expiration, now: int)
  {
    !e.Falsy? && !(e.At? && e.ms >= now + Week)
  }

  /**
   * Past the URL check, a renewal succeeds exactly when figpack.json was
   * fetched, its expiration is due and the upload went through; something
   * is uploaded exactly when the renewal is due, and it is the figure's own
   * figpack.json, expiring one week from now and stamped with the renewal
   * time, which is also the new expiration answered.
   */
  lemma RenewFigureSpec(v: UrlValidation, fetched: Option<Expiration>, now: int, uploadOk: bool)
    requires v.valid ==> v.figureId.Some? && |v.figureId.value| > 0 && v.baseUrl.Some? && |v.baseUrl.value| > 0
    ensures var o := RenewFigure(v, fetched, now, uploadOk);
            && (o.reply.Answer? && o.reply.success <==> v.valid && fetched.Some? && RenewalDue(fetched.value, now) && uploadOk)
            && (o.upload.Some? <==> v.valid && fetched.Some? && RenewalDue(fetched.value, now))
            && (o.upload.Some? ==> o.upload.value == Upload("figures/default/" + v.figureId.value + "/figpack.json", now + Week, now))
            && (o.reply.Answer? && o.reply.success ==> o.reply.status == 200 && o.reply.newExpiration == Some(now + Week))
            && (fetched.Some? && fetched.value.At? && fetched.value.ms >= now + Week ==> o.upload.None? && o.reply.Answer? && o.reply.status == 400)
  {
    if v.valid {
      FileKeySpec(v.figureId.value);
    }
  }

  /** The handler succeeds exactly for a POST of a valid figure URL whose renewal is due and whose upload went through. */
  lemma RenewSpec(httpMethod: string, figureUrl: string, fetched: Option<Expiration>, now: int, uploadOk: bool)
    ensures var o := Renew(httpMethod, Some(figureUrl), fetched, now, uploadOk);
            var v := ValidateFigureUrl(figureUrl);
            && (o.reply.Answer? && o.reply.success <==>
                  httpMethod == "POST" && v.valid && fetched.Some? && RenewalDue(fetched.value, now) && uploadOk)
            && (o.upload.Some? ==>
                  httpMethod == "POST" && v.valid
                  && o.upload.value == Upload("figures/default/" + v.figureId.value + "/figpack.json", now + Week, now))
  {
    var v := ValidateFigureUrl(figureUrl);
    if v.valid {
      assert v.baseUrl == Some(ExpectedPrefix + v.figureId.value) by {
        ValidUrlSpec(figureUrl);
      }
    }
    RenewFigureSpec(v, fetched, now, uploadOk);
  }

  /** A POST without a figure URL is refused with 400, and nothing is uploaded. */
  lemma MissingUrlRefused(fetched: Option<Expiration>, now: int, uploadOk: bool)
    ensures Renew("POST", None, fetched, now, uploadOk) == Failure(400, MissingFigureUrl)
    ensures Renew("POST", Some(""), fetched, now, uploadOk) == Failure(400, MissingFigureUrl)
  {
  }

  /** An expiration a week or more away is refused with 400, and nothing is uploaded. */
  lemma FarExpirationRefused(figureUrl: string, expiration: int, now: int, uploadOk: bool)
    requires ValidateFigureUrl(figureUrl).valid && expiration >= now + Week
    ensures Renew("POST", Some(figureUrl), Some(At(expiration)), now, uploadOk)
            == Failure(400, AlreadyFarEnough)
  {
    assert figureUrl != "";
  }

  /** A figure without an expiration is refused with 400, and nothing is uploaded. */
  lemma NoExpirationRefused(figureUrl: string, now: int, uploadOk: bool)
    requires ValidateFigureUrl(figureUrl).valid
    ensures Renew("POST", Some(figureUrl), Some(Falsy), now, uploadOk)
            == Failure(400, NoExpirationDate)
  {
    assert figureUrl != "";
  }

  /**
   * A renewed figure expires one week after its renewal, so renewing it
   * again succeeds only strictly later than the first renewal.
   */
  lemma RenewAgain(figureUrl: string, renewedAt: int, now: int)
    requires ValidateFigureUrl(figureUrl).valid
    ensures var first := Renew("POST", Some(figureUrl), Some(At(renewedAt)), renewedAt, true);
            first.reply.Answer? && first.reply.success ==>
              var again := Renew("POST", Some(figureUrl), Some(At(first.reply.newExpiration.value)), now, true);
              (again.reply.Answer? && again.reply.success <==> now > renewedAt)
  {
    RenewSpec("POST", figureUrl, Some(At(renewedAt)), renewedAt, true);
    RenewSpec("POST", figureUrl, Some(At(renewedAt + Week)), now, true);
    var first := Renew("POST", Some(figureUrl), Some(At(renewedAt)), renewedAt, true);
    if first.reply.Answer? && first.reply.success {
      RenewFigureSpec(ValidateFigureUrl(figureUrl), Some(At(renewedAt)), renewedAt, true);
    }
  }
}
