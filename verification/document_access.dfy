/**
 * Documents on the Cloudflare API: markdown pages that embed figures. A
 * document has an owner, a view mode ("owner-only", "users" or "public")
 * and an edit mode ("owner-only" or "users"), with lists of the users who
 * may view or edit it in "users" mode. The figures a document embeds are
 * recorded as its figure references.
 *
 * The key check, the database, the clock and the random document id are
 * not part of this model; their results are inputs. The markdown image
 * pattern `![...](http(s)://...)` is matched by a regular expression
 * library; its captured URLs, in match order, are an input too.
 */
module DocumentAccess {
  import opened Common
  import opened ApiKeys

  const MaxTitleLength: int := 200
  const MaxContentLength: int := 1000000
  const FiguresPath: string := "/figures/"

  datatype Document = Document(
    documentId: string,
    ownerEmail: string,
    title: string,
    content: string,
    figureRefs: seq<string>,
    viewMode: string,
    editMode: string,
    viewerEmails: seq<string>,
    editorEmails: seq<string>,
    createdAt: int,
    updatedAt: int)

  // ---------------------------------------------------------------------
  // Figure references
  // ---------------------------------------------------------------------

  /** The captured URLs that point at a figure, in order. */
  function FigureUrls(urls: seq<string>): seq<string>
  {
    if |urls| == 0 then []
    else
      var last := urls[|urls| - 1];
      FigureUrls(urls[..|urls| - 1]) + (if Contains(last, FiguresPath) then [last] else [])
  }

  /** `[...new Set(s)]`: each element once, at its first occurrence. */
  function Distinct(s: seq<string>): seq<string>
  {
    if |s| == 0 then []
    else
      var prev := Distinct(s[..|s| - 1]);
      if s[|s| - 1] in prev then prev else prev + [s[|s| - 1]]
  }

  /** `extractFigureRefsFromMarkdown`, given the URLs the image pattern captured. */
  method ExtractFigureRefs(urls: seq<string>) returns (refs: seq<string>)
    ensures refs == Distinct(FigureUrls(urls))
  {
    var figureRefs: seq<string> := [];
    for i := 0 to |urls|
      invariant figureRefs == FigureUrls(urls[..i])
    {
      assert urls[..i + 1][..i] == urls[..i];
      if Contains(urls[i], FiguresPath) {
        figureRefs := figureRefs + [urls[i]];
      }
    }
    assert urls[..|urls|] == urls;
    refs := [];
    for i := 0 to |figureRefs|
      invariant refs == Distinct(figureRefs[..i])
    {
      assert figureRefs[..i + 1][..i] == figureRefs[..i];
      if figureRefs[i] !in refs {
        refs := refs + [figureRefs[i]];
      }
    }
    assert figureRefs[..|figureRefs|] == figureRefs;
  }

  predicate NoDuplicates(s: seq<string>)
  {
    forall i, j :: 0 <= i < j < |s| ==> s[i] != s[j]
  }

  lemma {:induction false} FigureUrlsMembers(urls: seq<string>)
    ensures forall x :: x in FigureUrls(urls) <==> x in urls && Contains(x, FiguresPath)
  {
    if |urls| > 0 {
      var init := urls[..|urls| - 1];
      FigureUrlsMembers(init);
      assert urls == init + [urls[|urls| - 1]];
    }
  }

  lemma {:induction false} DistinctSpec(s: seq<string>)
    ensures NoDuplicates(Distinct(s))
    ensures forall x :: x in Distinct(s) <==> x in s
  {
    if |s| > 0 {
      var init := s[..|s| - 1];
      DistinctSpec(init);
      assert s == init + [s[|s| - 1]];
    }
  }

  /**
   * The references of a document are the captured URLs that contain
   * "/figures/", each listed once.
   */
  lemma FigureRefsSpec(urls: seq<string>)
    ensures var refs := Distinct(FigureUrls(urls));
            && NoDuplicates(refs)
            && forall x :: x in refs <==> x in urls && Contains(x, FiguresPath)
  {
    FigureUrlsMembers(urls);
    DistinctSpec(FigureUrls(urls));
  }

  // ---------------------------------------------------------------------
  // Access
  // ---------------------------------------------------------------------

  /** A signed-in user: JavaScript's `userEmail && ...` also rejects an empty email. */
  predicate SignedIn(userEmail: Option<string>)
  {
    userEmail.Some? && userEmail.value != ""
  }

  /** The view test of `handleGetDocument`. */
  predicate HasViewAccess(doc: Document, userEmail: Option<string>)
  {
    || doc.viewMode == "public"
    || (SignedIn(userEmail) && doc.ownerEmail == userEmail.value)
    || (SignedIn(userEmail) && doc.viewMode == "users" && userEmail.value in doc.viewerEmails)
  }

  /** The edit test of `handleGetDocument`. */
  predicate HasEditAccess(doc: Document, userEmail: Option<string>)
  {
    || (SignedIn(userEmail) && doc.ownerEmail == userEmail.value)
    || (SignedIn(userEmail) && doc.editMode == "users" && userEmail.value in doc.editorEmails)
  }

  /**
   * A signed-in owner may view and edit; anyone, signed in or not, may view
   * a public document; nobody who is not signed in may edit.
   */
  lemma AccessSpec(doc: Document, userEmail: Option<string>)
    ensures SignedIn(userEmail) && doc.ownerEmail == userEmail.value ==> HasViewAccess(doc, userEmail) && HasEditAccess(doc, userEmail)
    ensures doc.viewMode == "public" ==> HasViewAccess(doc, userEmail) && HasViewAccess(doc, None)
    ensures !SignedIn(userEmail) ==> !HasEditAccess(doc, userEmail) && (HasViewAccess(doc, userEmail) <==> doc.viewMode == "public")
  {
  }

  /**
   * The viewer list only counts in "users" view mode and the editor list
   * only in "users" edit mode: outside them, replacing a list changes no
   * one's access.
   */
  lemma ListsOnlyInUsersMode(doc: Document, userEmail: Option<string>, viewers: seq<string>, editors: seq<string>)
    ensures doc.viewMode != "users" ==>
              (HasViewAccess(doc.(viewerEmails := viewers), userEmail) <==> HasViewAccess(doc, userEmail))
    ensures doc.editMode != "users" ==>
              (HasEditAccess(doc.(editorEmails := editors), userEmail) <==> HasEditAccess(doc, userEmail))
  {
  }

  /**
   * Editing does not imply viewing: a signed-in user who is not the owner can
   * edit without being able to open the document exactly when they are on
   * the editor list in "users" edit mode, the document is not public, and
   * they are not a viewer in "users" view mode.
   */
  lemma EditorWithoutView(doc: Document, userEmail: Option<string>)
    ensures HasEditAccess(doc, userEmail) && !HasViewAccess(doc, userEmail) <==>
              && SignedIn(userEmail) && doc.ownerEmail != userEmail.value
              && doc.editMode == "users" && userEmail.value in doc.editorEmails
              && doc.viewMode != "public"
              && !(doc.viewMode == "users" && userEmail.value in doc.viewerEmails)
  {
  }

  /** The user a request with an optional API key acts as, if any. */
  function RequestUser(apiKey: string, auth: AuthResult): (u: Option<string>)
    ensures u.Some? ==> apiKey != "" && Authenticated(auth)
  {
    if apiKey != "" && Authenticated(auth) then Some(auth.user.value.email) else None
  }

  datatype DocumentView = DocumentView(document: Document, hasEditAccess: bool)

  /** `handleGetDocument`. */
  function GetDocument(documentId: string, apiKey: string, auth: AuthResult, row: Option<Document>): Response<DocumentView>
  {
    if documentId == "" then Refused(400, "Missing required field: documentId")
    else if row.None? then Refused(404, "Document not found")
    else
      var userEmail := RequestUser(apiKey, auth);
      if !HasViewAccess(row.value, userEmail) then Refused(403, "Access denied")
      else Ok(DocumentView(row.value, HasEditAccess(row.value, userEmail)))
  }

  /**
   * A document is returned exactly when it exists and the caller may view
   * it, and the returned flag says whether the caller may edit it.
   */
  lemma GetDocumentSpec(documentId: string, apiKey: string, auth: AuthResult, row: Option<Document>)
    ensures var r, u := GetDocument(documentId, apiKey, auth, row), RequestUser(apiKey, auth);
            && (r.Ok? <==> documentId != "" && row.Some? && HasViewAccess(row.value, u))
            && (r.Ok? ==> r.value.document == row.value && r.value.hasEditAccess == HasEditAccess(row.value, u))
  {
  }

  /** The filter of `handleGetDocumentsReferencingFigure` over the referencing rows. */
  function VisibleDocuments(docs: seq<Document>, userEmail: Option<string>): (r: seq<Document>)
    ensures forall k :: 0 <= k < |r| ==> r[k] in docs && HasViewAccess(r[k], userEmail)
    ensures forall k :: 0 <= k < |docs| && HasViewAccess(docs[k], userEmail) ==> docs[k] in r
  {
    if |docs| == 0 then []
    else (if HasViewAccess(docs[0], userEmail) then [docs[0]] else []) + VisibleDocuments(docs[1..], userEmail)
  }

  /** One row is kept exactly when the caller may view it. */
  lemma VisibleDocumentsSingle(d: Document, userEmail: Option<string>)
    ensures VisibleDocuments([d], userEmail) == if HasViewAccess(d, userEmail) then [d] else []
  {
    assert [d][1..] == [];
  }

  /**
   * The filter keeps the rows' order (newest update first, as the query
   * returns them) and each row's multiplicity: filtering a concatenation
   * is the concatenation of the filtered parts.
   */
  lemma {:induction false} VisibleDocumentsAppend(a: seq<Document>, b: seq<Document>, userEmail: Option<string>)
    ensures VisibleDocuments(a + b, userEmail) == VisibleDocuments(a, userEmail) + VisibleDocuments(b, userEmail)
    decreases |a|
  {
    if |a| == 0 {
      assert a + b == b;
    } else {
      assert (a + b)[0] == a[0];
      assert (a + b)[1..] == a[1..] + b;
      VisibleDocumentsAppend(a[1..], b, userEmail);
    }
  }

  // ---------------------------------------------------------------------
  // Create and update
  // ---------------------------------------------------------------------

  /** A title is accepted when its trimmed form is not empty and has at most 200 characters. */
  predicate TitleValid(title: string)
  {
    JsTrim(title) != "" && |JsTrim(title)| <= MaxTitleLength
  }

  predicate ContentValid(content: string)
  {
    |content| <= MaxContentLength
  }

  /** `handleCreateDocument`: owner-only access, no viewers or editors. */
  function CreateDocument(apiKey: string, title: string, content: Option<string>, auth: AuthResult,
                          documentId: string, urls: seq<string>, now: int): Response<Document>
  {
    var documentContent := if content.Some? then content.value else "";
    if apiKey == "" then Refused(400, "Missing required field: apiKey")
    else if JsTrim(title) == "" then Refused(400, "Missing required field: title")
    else if |JsTrim(title)| > MaxTitleLength then Refused(400, "Title must be 200 characters or less")
    else if |documentContent| > MaxContentLength then Refused(400, "Content must be 1MB or less")
    else if !Authenticated(auth) then Refused(401, "Invalid API key")
    else Ok(Document(documentId, auth.user.value.email, JsTrim(title), documentContent, Distinct(FigureUrls(urls)),
                     "owner-only", "owner-only", [], [], now, now))
  }

  /**
   * A document is created exactly for a request with an API key, a valid
   * title, content of at most 1,000,000 characters (none counts as empty)
   * and an authenticated caller, who becomes its owner; only the owner may
   * view or edit the new document.
   */
  lemma CreateSpec(apiKey: string, title: string, content: Option<string>, auth: AuthResult,
                   documentId: string, urls: seq<string>, now: int, someone: Option<string>)
    ensures var r := CreateDocument(apiKey, title, content, auth, documentId, urls, now);
            && (r.Ok? <==> apiKey != "" && TitleValid(title) && (content.Some? ==> ContentValid(content.value)) && Authenticated(auth))
            && (r.Ok? ==>
                  && r.value.ownerEmail == auth.user.value.email && r.value.title == JsTrim(title)
                  && r.value.figureRefs == Distinct(FigureUrls(urls))
                  && (HasViewAccess(r.value, someone) <==> SignedIn(someone) && someone.value == auth.user.value.email)
                  && (HasEditAccess(r.value, someone) <==> SignedIn(someone) && someone.value == auth.user.value.email))
  {
  }

  /** The access settings an owner may send; an empty string or no list leaves a setting as it is. */
  datatype AccessControl = AccessControl(viewMode: string, editMode: string,
                                         viewerEmails: Option<seq<string>>, editorEmails: Option<seq<string>>)

  /** Access settings that change nothing. */
  const NoChange: AccessControl := AccessControl("", "", None, None)

  /** The edit test of `handleUpdateDocument`, which does not require a non-empty email. */
  predicate MayUpdate(doc: Document, userEmail: string)
  {
    doc.ownerEmail == userEmail || (doc.editMode == "users" && userEmail in doc.editorEmails)
  }

  /** Whether an access-control change is applied: only the owner's is. */
  predicate AppliesAccess(doc: Document, userEmail: string, accessControl: Option<AccessControl>)
  {
    accessControl.Some? && doc.ownerEmail == userEmail
  }

  /** No column would be written. */
  predicate NothingToUpdate(doc: Document, userEmail: string, title: Option<string>, content: Option<string>,
                            accessControl: Option<AccessControl>)
  {
    && title.None? && content.None?
    && (AppliesAccess(doc, userEmail, accessControl) ==>
          var ac := accessControl.value;
          ac.viewMode == "" && ac.editMode == "" && ac.viewerEmails.None? && ac.editorEmails.None?)
  }

  /** What the update of a document the caller may edit writes, or why it is refused. */
  function UpdatedDocument(doc: Document, userEmail: string, title: Option<string>, content: Option<string>,
                           accessControl: Option<AccessControl>, urls: seq<string>, now: int): Response<Document>
  {
    if title.Some? && JsTrim(title.value) == "" then Refused(400, "Title cannot be empty")
    else if title.Some? && |JsTrim(title.value)| > MaxTitleLength then Refused(400, "Title must be 200 characters or less")
    else if content.Some? && |content.value| > MaxContentLength then Refused(400, "Content must be 1MB or less")
    else if NothingToUpdate(doc, userEmail, title, content, accessControl) then Refused(400, "No fields to update")
    else
      var ac := if AppliesAccess(doc, userEmail, accessControl) then accessControl.value else NoChange;
      Ok(doc.(
        title := if title.Some? then JsTrim(title.value) else doc.title,
        content := if content.Some? then content.value else doc.content,
        figureRefs := if content.Some? then Distinct(FigureUrls(urls)) else doc.figureRefs,
        viewMode := if ac.viewMode != "" then ac.viewMode else doc.viewMode,
        editMode := if ac.editMode != "" then ac.editMode else doc.editMode,
        viewerEmails := if ac.viewerEmails.Some? then ac.viewerEmails.value else doc.viewerEmails,
        editorEmails := if ac.editorEmails.Some? then ac.editorEmails.value else doc.editorEmails,
        updatedAt := now))
  }

  /** The update builder: checks and collects the columns to write, then writes them. */
  method BuildUpdate(doc: Document, userEmail: string, title: Option<string>, content: Option<string>,
                     accessControl: Option<AccessControl>, urls: seq<string>, now: int) returns (r: Response<Document>)
    ensures r == UpdatedDocument(doc, userEmail, title, content, accessControl, urls, now)
  {
    var updates: seq<string> := [];
    var next := doc;
    if title.Some? {
      var trimmed := JsTrim(title.value);
      if trimmed == "" {
        return Refused(400, "Title cannot be empty");
      }
      if |trimmed| > MaxTitleLength {
        return Refused(400, "Title must be 200 characters or less");
      }
      updates := updates + ["title"];
      next := next.(title := trimmed);
    }
    if content.Some? {
      if |content.value| > MaxContentLength {
        return Refused(400, "Content must be 1MB or less");
      }
      updates := updates + ["content"];
      next := next.(content := content.value);
      var figureRefs := ExtractFigureRefs(urls);
      updates := updates + ["figure_refs"];
      next := next.(figureRefs := figureRefs);
    }
    if accessControl.Some? && doc.ownerEmail == userEmail {
      var ac := accessControl.value;
      if ac.viewMode != "" {
        updates := updates + ["view_mode"];
        next := next.(viewMode := ac.viewMode);
      }
      if ac.editMode != "" {
        updates := updates + ["edit_mode"];
        next := next.(editMode := ac.editMode);
      }
      if ac.viewerEmails.Some? {
        updates := updates + ["viewer_emails"];
        next := next.(viewerEmails := ac.viewerEmails.value);
      }
      if ac.editorEmails.Some? {
        updates := updates + ["editor_emails"];
        next := next.(editorEmails := ac.editorEmails.value);
      }
    }
    if |updates| == 0 {
      return Refused(400, "No fields to update");
    }
    r := Ok(next.(updatedAt := now));
  }

  /** `handleUpdateDocument`. */
  function UpdateDocument(documentId: string, apiKey: string, auth: AuthResult, row: Option<Document>,
                          title: Option<string>, content: Option<string>, accessControl: Option<AccessControl>,
                          urls: seq<string>, now: int): Response<Document>
  {
    if documentId == "" then Refused(400, "Missing required field: documentId")
    else if apiKey == "" then Refused(400, "API key is required")
    else if !Authenticated(auth) then Refused(401, "Invalid API key")
    else if row.None? then Refused(404, "Document not found")
    else if !MayUpdate(row.value, auth.user.value.email) then Refused(403, "Access denied")
    else UpdatedDocument(row.value, auth.user.value.email, title, content, accessControl, urls, now)
  }

  /**
   * An update is written exactly when the caller may edit the document, a
   * given title is valid, given content has at most 1,000,000 characters
   * and something is to be written. The owner, the id and the creation
   * time never change; the access settings change only for the owner; a
   * request that would write nothing is refused.
   */
  lemma UpdateSpec(documentId: string, apiKey: string, auth: AuthResult, row: Option<Document>,
                   title: Option<string>, content: Option<string>, accessControl: Option<AccessControl>,
                   urls: seq<string>, now: int)
    ensures var r := UpdateDocument(documentId, apiKey, auth, row, title, content, accessControl, urls, now);
            && (r.Ok? <==>
                  && documentId != "" && apiKey != "" && Authenticated(auth) && row.Some?
                  && MayUpdate(row.value, auth.user.value.email)
                  && (title.Some? ==> TitleValid(title.value)) && (content.Some? ==> ContentValid(content.value))
                  && !NothingToUpdate(row.value, auth.user.value.email, title, content, accessControl))
            && (r.Ok? ==>
                  var doc := row.value;
                  && r.value.ownerEmail == doc.ownerEmail && r.value.documentId == doc.documentId
                  && r.value.createdAt == doc.createdAt && r.value.updatedAt == now
                  && r.value.title == (if title.Some? then JsTrim(title.value) else doc.title)
                  && r.value.content == (if content.Some? then content.value else doc.content)
                  && (doc.ownerEmail != auth.user.value.email ==>
                        && r.value.viewMode == doc.viewMode && r.value.editMode == doc.editMode
                        && r.value.viewerEmails == doc.viewerEmails && r.value.editorEmails == doc.editorEmails))
            && (documentId != "" && apiKey != "" && Authenticated(auth) && row.Some?
                && MayUpdate(row.value, auth.user.value.email)
                && NothingToUpdate(row.value, auth.user.value.email, title, content, accessControl) ==>
                  r == Refused(400, "No fields to update"))
  {
  }

  /** An update keeps a signed-in owner's access. */
  lemma UpdateKeepsOwner(documentId: string, apiKey: string, auth: AuthResult, row: Option<Document>,
                         title: Option<string>, content: Option<string>, accessControl: Option<AccessControl>,
                         urls: seq<string>, now: int, owner: string)
    requires row.Some? && owner != "" && row.value.ownerEmail == owner
    requires UpdateDocument(documentId, apiKey, auth, row, title, content, accessControl, urls, now).Ok?
    ensures var doc := UpdateDocument(documentId, apiKey, auth, row, title, content, accessControl, urls, now).value;
            HasViewAccess(doc, Some(owner)) && HasEditAccess(doc, Some(owner))
  {
    UpdateSpec(documentId, apiKey, auth, row, title, content, accessControl, urls, now);
  }

  /** `handleDeleteDocument`: only the owner may delete. */
  function DeleteDocument(documentId: string, apiKey: string, auth: AuthResult, row: Option<Document>): (r: Response<()>)
    ensures r.Ok? <==> documentId != "" && apiKey != "" && Authenticated(auth) && row.Some?
                       && row.value.ownerEmail == auth.user.value.email
  {
    if documentId == "" then Refused(400, "Missing required field: documentId")
    else if apiKey == "" then Refused(400, "API key is required")
    else if !Authenticated(auth) then Refused(401, "Invalid API key")
    else if row.None? then Refused(404, "Document not found")
    else if row.value.ownerEmail != auth.user.value.email then Refused(403, "Access denied. Only owner can delete.")
    else Ok(())
  }
}
