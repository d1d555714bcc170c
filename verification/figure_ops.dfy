/**
 * Pinning, unpinning and renewing figures on the Cloudflare API. A pinned
 * figure never expires (its expiration is 0); an unpinned one expires a
 * week after it was unpinned or last renewed. Each handler checks its
 * request, the caller's API key and the figure's row in a fixed order and
 * refuses with an HTTP status and a message at the first failed check.
 *
 * The key check (`validateApiKey`), the database and the clock are not part
 * of this model: their results are parameters. The row a handler reads is
 * given as an `Option<Figure>`, and a successful handler returns the row as
 * it writes it back.
 */
module FigureOps {
  import opened Common
  import opened ApiKeys

  /** Seven days in milliseconds. */
  const Week: int := 7 * 24 * 60 * 60 * 1000

  const NameRequired: string := "Name is required"
  const NameTooLong: string := "Name must be 100 characters or less"
  const DescriptionRequired: string := "Figure description is required"
  const DescriptionTooShort: string := "Figure description must be at least 10 characters"
  const DescriptionTooLong: string := "Figure description must be 300 characters or less"

  /** The columns of a figure's row that these handlers read or write. */
  datatype Figure = Figure(
    figureUrl: string,
    ownerEmail: string,
    pinned: bool,
    isEphemeral: bool,
    expiration: int,
    pinName: Option<string>,
    pinDescription: Option<string>,
    pinnedTimestamp: Option<int>,
    renewalTimestamp: Option<int>,
    updatedAt: int)

  datatype PinInfo = PinInfo(name: string, figureDescription: string)

  // ---------------------------------------------------------------------
  // `validatePinInfo`
  // ---------------------------------------------------------------------

  /** A missing or blank string: `!s || s.trim().length === 0`. */
  predicate Blank(s: string)
  {
    JsTrim(s) == ""
  }

  /** The pin rules: a name of at most 100 characters and a description of 10 to 300, neither blank. */
  predicate PinInfoValid(info: PinInfo)
  {
    && !Blank(info.name) && |info.name| <= 100
    && !Blank(info.figureDescription) && 10 <= |info.figureDescription| <= 300
  }

  function NameErrors(name: string): seq<string>
  {
    if Blank(name) then [NameRequired]
    else if |name| > 100 then [NameTooLong]
    else []
  }

  function DescriptionErrors(description: string): seq<string>
  {
    if Blank(description) then [DescriptionRequired]
    else if |description| < 10 then [DescriptionTooShort]
    else if |description| > 300 then [DescriptionTooLong]
    else []
  }

  /** The messages `validatePinInfo` collects, the name's before the description's. */
  function PinErrors(info: PinInfo): seq<string>
  {
    NameErrors(info.name) + DescriptionErrors(info.figureDescription)
  }

  /** `validatePinInfo`: pushes one message per failed rule; valid when none was pushed. */
  method ValidatePinInfo(info: PinInfo) returns (valid: bool, errors: seq<string>)
    ensures errors == PinErrors(info)
    ensures valid <==> PinInfoValid(info)
    ensures valid <==> errors == []
  {
    errors := [];
    if info.name == "" || |JsTrim(info.name)| == 0 {
      errors := errors + [NameRequired];
    } else if |info.name| > 100 {
      errors := errors + [NameTooLong];
    }
    if info.figureDescription == "" || |JsTrim(info.figureDescription)| == 0 {
      errors := errors + [DescriptionRequired];
    } else if |info.figureDescription| < 10 {
      errors := errors + [DescriptionTooShort];
    } else if |info.figureDescription| > 300 {
      errors := errors + [DescriptionTooLong];
    }
    valid := |errors| == 0;
  }

  /**
   * Each message is pushed exactly when its rule fails: a blank name, a
   * name over 100 characters, a blank description, or one under 10 or
   * over 300 characters. There is at most one message about the name and
   * at most one about the description, and the list is empty iff the pin
   * information is valid.
   */
  lemma PinErrorsSpec(info: PinInfo)
    ensures var errors, name, description := PinErrors(info), info.name, info.figureDescription;
            && |errors| <= 2
            && (errors == [] <==> PinInfoValid(info))
            && (NameRequired in errors <==> Blank(name))
            && (NameTooLong in errors <==> !Blank(name) && |name| > 100)
            && (DescriptionRequired in errors <==> Blank(description))
            && (DescriptionTooShort in errors <==> !Blank(description) && |description| < 10)
            && (DescriptionTooLong in errors <==> !Blank(description) && |description| > 300)
  {
    var nameErrors, descriptionErrors := NameErrors(info.name), DescriptionErrors(info.figureDescription);
    assert DescriptionTooShort[27] != DescriptionTooLong[27];
    assert forall e :: e in PinErrors(info) <==> e in nameErrors || e in descriptionErrors;
  }

  // ---------------------------------------------------------------------
  // Pin and unpin
  // ---------------------------------------------------------------------

  /** The row after pinning: no expiration, the trimmed pin information, pinned now. */
  function PinnedRow(figure: Figure, info: PinInfo, now: int): Figure
  {
    figure.(pinned := true, expiration := 0,
            pinName := Some(JsTrim(info.name)), pinDescription := Some(JsTrim(info.figureDescription)),
            pinnedTimestamp := Some(now), updatedAt := now)
  }

  /** The row after unpinning: expiring a week from now, pin information cleared. */
  function UnpinnedRow(figure: Figure, now: int): Figure
  {
    figure.(pinned := false, expiration := now + Week,
            pinName := None, pinDescription := None, pinnedTimestamp := None, updatedAt := now)
  }

  /** `handlePinFigure`; an absent or empty field is missing. */
  function PinFigure(figureUrl: string, apiKey: string, pinInfo: Option<PinInfo>,
                     auth: AuthResult, row: Option<Figure>, now: int): Response<Figure>
  {
    if figureUrl == "" then Refused(400, "Missing required field: figureUrl")
    else if apiKey == "" then Refused(400, "Missing required field: apiKey")
    else if pinInfo.None? then Refused(400, "Missing required field: pinInfo")
    else if !Authenticated(auth) then Refused(401, "Invalid API key")
    else if PinErrors(pinInfo.value) != [] then
      Refused(400, "Validation errors: " + Join(PinErrors(pinInfo.value), ", "))
    else if row.None? then Refused(404, "Figure not found")
    else if row.value.ownerEmail != auth.user.value.email then Refused(403, "You can only pin figures that you own")
    else if row.value.isEphemeral then Refused(400, "Ephemeral figures cannot be pinned")
    else if row.value.pinned then Refused(400, "Figure is already pinned")
    else Ok(PinnedRow(row.value, pinInfo.value, now))
  }

  /** `handleUnpinFigure`. */
  function UnpinFigure(figureUrl: string, apiKey: string, auth: AuthResult, row: Option<Figure>, now: int): Response<Figure>
  {
    if figureUrl == "" then Refused(400, "Missing required field: figureUrl")
    else if apiKey == "" then Refused(400, "Missing required field: apiKey")
    else if !Authenticated(auth) then Refused(401, "Invalid API key")
    else if row.None? then Refused(404, "Figure not found")
    else if row.value.ownerEmail != auth.user.value.email then Refused(403, "You can only unpin figures that you own")
    else if !row.value.pinned then Refused(400, "Figure is not pinned")
    else Ok(UnpinnedRow(row.value, now))
  }

  /** The figure's identity, owner and channel: what no handler here changes. */
  predicate SameFigure(a: Figure, b: Figure)
  {
    a.figureUrl == b.figureUrl && a.ownerEmail == b.ownerEmail && a.isEphemeral == b.isEphemeral
  }

  /**
   * Pinning succeeds exactly for a complete request from an authenticated
   * owner with valid pin information, on a figure that is neither ephemeral
   * nor already pinned. The figure is then pinned with expiration 0 and the
   * trimmed name and description, stamped with the time of pinning, and its
   * identity, owner, channel and renewal time are kept.
   */
  lemma PinSpec(figureUrl: string, apiKey: string, pinInfo: Option<PinInfo>,
                auth: AuthResult, row: Option<Figure>, now: int)
    ensures var r := PinFigure(figureUrl, apiKey, pinInfo, auth, row, now);
            && (r.Ok? <==>
                  figureUrl != "" && apiKey != "" && pinInfo.Some? && Authenticated(auth) && PinInfoValid(pinInfo.value)
                  && row.Some? && row.value.ownerEmail == auth.user.value.email
                  && !row.value.isEphemeral && !row.value.pinned)
            && (r.Ok? ==>
                  && r.value.pinned && r.value.expiration == 0
                  && r.value.pinName == Some(JsTrim(pinInfo.value.name))
                  && r.value.pinDescription == Some(JsTrim(pinInfo.value.figureDescription))
                  && r.value.pinnedTimestamp == Some(now) && r.value.updatedAt == now
                  && SameFigure(r.value, row.value) && r.value.renewalTimestamp == row.value.renewalTimestamp)
  {
    if pinInfo.Some? {
      PinErrorsSpec(pinInfo.value);
    }
  }

  /** Invalid pin information is refused with 400 and every failed rule's message, in order. */
  lemma PinValidationMessage(figureUrl: string, apiKey: string, info: PinInfo, auth: AuthResult, row: Option<Figure>, now: int)
    requires figureUrl != "" && apiKey != "" && Authenticated(auth) && !PinInfoValid(info)
    ensures PinFigure(figureUrl, apiKey, Some(info), auth, row, now) ==
            Refused(400, "Validation errors: " + Join(PinErrors(info), ", "))
  {
    PinErrorsSpec(info);
  }

  /**
   * Unpinning succeeds exactly for a complete request from an authenticated
   * owner on a pinned figure; the figure then expires a week from now and
   * its pin information is cleared.
   */
  lemma UnpinSpec(figureUrl: string, apiKey: string, auth: AuthResult, row: Option<Figure>, now: int)
    ensures var r := UnpinFigure(figureUrl, apiKey, auth, row, now);
            && (r.Ok? <==>
                  figureUrl != "" && apiKey != "" && Authenticated(auth)
                  && row.Some? && row.value.ownerEmail == auth.user.value.email && row.value.pinned)
            && (r.Ok? ==>
                  && !r.value.pinned && r.value.expiration == now + Week
                  && r.value.pinName.None? && r.value.pinDescription.None? && r.value.pinnedTimestamp.None?
                  && r.value.updatedAt == now && SameFigure(r.value, row.value))
  {
  }

  /**
   * Unpinning a figure just pinned by the same owner succeeds and leaves no
   * pin information; what differs from the figure before pinning is only
   * its expiration (a week after the unpinning) and its update time.
   */
  lemma PinThenUnpin(figureUrl: string, apiKey: string, info: PinInfo, auth: AuthResult, figure: Figure,
                     pinnedAt: int, unpinnedAt: int)
    requires PinFigure(figureUrl, apiKey, Some(info), auth, Some(figure), pinnedAt).Ok?
    requires figure.pinName.None? && figure.pinDescription.None? && figure.pinnedTimestamp.None?
    ensures var pinned := PinFigure(figureUrl, apiKey, Some(info), auth, Some(figure), pinnedAt).value;
            var r := UnpinFigure(figureUrl, apiKey, auth, Some(pinned), unpinnedAt);
            r.Ok? && r.value == figure.(expiration := unpinnedAt + Week, updatedAt := unpinnedAt)
  {
    PinSpec(figureUrl, apiKey, Some(info), auth, Some(figure), pinnedAt);
  }

  // ---------------------------------------------------------------------
  // Renewal
  // ---------------------------------------------------------------------

  /** The row after a renewal: expiring a week from now, renewed now. */
  function RenewedRow(figure: Figure, now: int): Figure
  {
    figure.(expiration := now + Week, renewalTimestamp := Some(now), updatedAt := now)
  }

  /** `handleRenewFigure`: the owner or an administrator may renew. */
  function RenewFigure(figureUrl: string, apiKey: string, auth: AuthResult, row: Option<Figure>, now: int): Response<Figure>
  {
    if figureUrl == "" then Refused(400, "Missing required field: figureUrl")
    else if apiKey == "" then Refused(400, "Missing required field: apiKey *")
    else if !Authenticated(auth) then Refused(401, "Invalid API key")
    else if row.None? then Refused(404, "Figure not found")
    else if row.value.ownerEmail != auth.user.value.email && !auth.isAdmin then
      Refused(403, if auth.isAdmin then "Admin renewal failed" else "You can only renew figures that you own")
    else if row.value.isEphemeral then Refused(400, "Ephemeral figures cannot be renewed")
    else if row.value.pinned then Refused(400, "Pinned figures do not have expiration dates and cannot be renewed")
    else if row.value.expiration >= now + Week then
      Refused(400, "Figure expiration is already 1 week or more in the future")
    else Ok(RenewedRow(row.value, now))
  }

  /**
   * Renewal succeeds exactly for a complete request from an authenticated
   * owner or administrator, on a figure that is not ephemeral, not pinned
   * and expires less than a week from now; the figure then expires a week
   * from now. A refusal for not owning the figure always names ownership.
   */
  lemma RenewSpec(figureUrl: string, apiKey: string, auth: AuthResult, row: Option<Figure>, now: int)
    ensures var r := RenewFigure(figureUrl, apiKey, auth, row, now);
            && (r.Ok? <==>
                  figureUrl != "" && apiKey != "" && Authenticated(auth) && row.Some?
                  && (row.value.ownerEmail == auth.user.value.email || auth.isAdmin)
                  && !row.value.isEphemeral && !row.value.pinned && row.value.expiration < now + Week)
            && (r.Ok? ==>
                  && r.value.expiration == now + Week && r.value.renewalTimestamp == Some(now)
                  && r.value.pinned == row.value.pinned && r.value.pinName == row.value.pinName
                  && SameFigure(r.value, row.value))
            && (r.Refused? && r.status == 403 ==> r.message == "You can only renew figures that you own")
  {
  }

  /** A figure pinned by a handler cannot be renewed, by its owner or anyone. */
  lemma PinnedNotRenewed(figureUrl: string, apiKey: string, info: PinInfo, auth: AuthResult, figure: Figure,
                         pinnedAt: int, renewAuth: AuthResult, now: int)
    requires PinFigure(figureUrl, apiKey, Some(info), auth, Some(figure), pinnedAt).Ok?
    ensures var pinned := PinFigure(figureUrl, apiKey, Some(info), auth, Some(figure), pinnedAt).value;
            RenewFigure(figureUrl, apiKey, renewAuth, Some(pinned), now).Refused?
  {
  }

  /**
   * A renewed figure cannot be renewed again before time moves on, and can
   * be at any later time.
   */
  lemma RenewAgain(figureUrl: string, apiKey: string, auth: AuthResult, figure: Figure, renewedAt: int, now: int)
    requires RenewFigure(figureUrl, apiKey, auth, Some(figure), renewedAt).Ok?
    ensures var renewed := RenewFigure(figureUrl, apiKey, auth, Some(figure), renewedAt).value;
            RenewFigure(figureUrl, apiKey, auth, Some(renewed), now).Ok? <==> now > renewedAt
  {
  }

  // ---------------------------------------------------------------------
  // Bulk renewal
  // ---------------------------------------------------------------------

  /** The rows the bulk update matches. */
  predicate BulkEligible(figure: Figure, userEmail: string, now: int)
  {
    figure.ownerEmail == userEmail && !figure.pinned && !figure.isEphemeral
    && figure.expiration < now + Week && figure.expiration > 0
  }

  datatype Bulk = Bulk(figures: seq<Figure>, renewedCount: nat)

  /** The bulk update applied to a table of rows: the matched rows are renewed and counted. */
  function RenewAll(figures: seq<Figure>, userEmail: string, now: int): (r: Bulk)
    ensures |r.figures| == |figures| && r.renewedCount <= |figures|
    ensures forall i :: 0 <= i < |figures| ==>
              r.figures[i] == if BulkEligible(figures[i], userEmail, now) then RenewedRow(figures[i], now) else figures[i]
  {
    if |figures| == 0 then Bulk([], 0)
    else
      var rest := RenewAll(figures[1..], userEmail, now);
      if BulkEligible(figures[0], userEmail, now) then Bulk([RenewedRow(figures[0], now)] + rest.figures, rest.renewedCount + 1)
      else Bulk([figures[0]] + rest.figures, rest.renewedCount)
  }

  /** The rows the bulk update matches, in table order. */
  function EligibleRows(figures: seq<Figure>, userEmail: string, now: int): (r: seq<Figure>)
    ensures forall k :: 0 <= k < |r| ==> BulkEligible(r[k], userEmail, now)
  {
    if |figures| == 0 then []
    else (if BulkEligible(figures[0], userEmail, now) then [figures[0]] else []) + EligibleRows(figures[1..], userEmail, now)
  }

  /** The reported count is the number of matching rows. */
  lemma {:induction false} RenewAllCount(figures: seq<Figure>, userEmail: string, now: int)
    ensures RenewAll(figures, userEmail, now).renewedCount == |EligibleRows(figures, userEmail, now)|
  {
    if |figures| > 0 {
      RenewAllCount(figures[1..], userEmail, now);
    }
  }

  /** `handleRenewBulkFigures`: renews every matching row of the caller's and reports how many. */
  function RenewBulk(apiKey: string, auth: AuthResult, figures: seq<Figure>, now: int): Response<Bulk>
  {
    if apiKey == "" then Refused(400, "Missing required field: apiKey")
    else if !Authenticated(auth) then Refused(401, "Invalid API key")
    else Ok(RenewAll(figures, auth.user.value.email, now))
  }

  /**
   * The bulk renewal touches only the caller's figures that are unpinned,
   * not ephemeral and expire in the coming week (expiration above 0 and
   * before a week from now), renews each of those exactly as the single
   * renewal would, leaves every other row unchanged, and reports how many
   * rows it renewed.
   */
  lemma RenewBulkSpec(apiKey: string, auth: AuthResult, figures: seq<Figure>, now: int)
    requires apiKey != "" && Authenticated(auth)
    ensures var r, email := RenewBulk(apiKey, auth, figures, now), auth.user.value.email;
            && r.Ok? && |r.value.figures| == |figures|
            && r.value.renewedCount == |EligibleRows(figures, email, now)|
            && forall i :: 0 <= i < |figures| ==>
                 if BulkEligible(figures[i], email, now) then
                   && r.value.figures[i] == RenewedRow(figures[i], now)
                   && (figures[i].figureUrl != "" ==>
                         RenewFigure(figures[i].figureUrl, apiKey, auth, Some(figures[i]), now) == Ok(r.value.figures[i]))
                 else r.value.figures[i] == figures[i]
  {
    RenewAllCount(figures, auth.user.value.email, now);
  }
}
