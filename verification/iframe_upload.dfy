/**
 * Uploading a figure's files through an embedded figpack-manage page: the
 * figure page talks to an iframe by window messages. Only messages from
 * trusted origins are accepted, the management site's address is derived
 * from a figure's management URL, and only figures served from
 * figures.figpack.org are uploaded this way.
 *
 * The browser's message channel is not part of this model: receiving a
 * message is a method call, and a posted message is recorded in the
 * handler's `sent` list. Handler callbacks are recorded as the messages
 * they were given.
 */
module IframeUpload {
  import opened Common

  const ManageOrigin: string := "https://manage.figpack.org"
  const FiguresPrefix: string := "https://figures.figpack.org/"

  /** `isValidOrigin`: a localhost origin with a port, the management site, or any *.figpack.org host. */
  predicate IsValidOrigin(origin: string)
  {
    || StartsWith(origin, "http://localhost:") || StartsWith(origin, "https://localhost:")
    || origin == ManageOrigin
    || EndsWith(origin, ".figpack.org")
  }

  /** Every subdomain of figpack.org is trusted, over either protocol. */
  lemma SubdomainsValid(scheme: string, sub: string)
    ensures IsValidOrigin(scheme + sub + ".figpack.org")
  {
    var origin := scheme + sub + ".figpack.org";
    assert origin[|origin| - |".figpack.org"|..] == ".figpack.org";
  }

  /** Any localhost port is trusted. */
  lemma LocalhostPortsValid(port: string)
    ensures IsValidOrigin("http://localhost:" + port) && IsValidOrigin("https://localhost:" + port)
  {
    assert ("http://localhost:" + port)[..|"http://localhost:"|] == "http://localhost:";
    assert ("https://localhost:" + port)[..|"https://localhost:"|] == "https://localhost:";
  }

  /** Localhost without a port is refused, over either protocol. */
  lemma LocalhostWithoutPortInvalid(scheme: string)
    requires scheme == "http" || scheme == "https"
    ensures !IsValidOrigin(scheme + "://localhost")
  {
    var a := scheme + "://localhost";
    assert |a| == |scheme| + 12;
    assert !StartsWith(a, "http://localhost:") by {
      if scheme == "https" {
        assert a[4] != "http://localhost:"[4];
      }
    }
    assert !EndsWith(a, ".figpack.org") by {
      assert a[|a| - 1] == 't';
    }
    assert a != ManageOrigin by {
      assert a[|a| - 1] != ManageOrigin[|ManageOrigin| - 1];
    }
  }

  /**
   * A host that is figpack.org itself, or a look-alike ending in
   * "figpack.org" without the dot, is refused: `hostName` is what comes before
   * "figpack.org" in the host ("" for the bare domain, "evil" for
   * evilfigpack.org), and a host label holds no '.' and no ':'.
   */
  lemma LookalikeInvalid(scheme: string, hostName: string)
    requires scheme == "http" || scheme == "https"
    requires forall i :: 0 <= i < |hostName| ==> hostName[i] != '.' && hostName[i] != ':'
    ensures !IsValidOrigin(scheme + "://" + hostName + "figpack.org")
  {
    var o := scheme + "://" + hostName + "figpack.org";
    var k := |scheme| + 3;
    assert o[|o| - 12] != '.' by {
      if |hostName| > 0 {
        assert o[|o| - 12] == hostName[|hostName| - 1];
      } else {
        assert o[|o| - 12] == '/';
      }
    }
    assert !StartsWith(o, "http://localhost:") by {
      if |o| >= 17 && scheme == "http" {
        assert o[16] != ':' by {
          if 16 < k + |hostName| {
            assert o[16] == hostName[16 - k];
          }
        }
        assert o[16] != "http://localhost:"[16];
      } else if |o| >= 17 {
        assert o[4] != "http://localhost:"[4];
      }
    }
    assert !StartsWith(o, "https://localhost:") by {
      if |o| >= 18 && scheme == "https" {
        assert o[17] != ':' by {
          if 17 < k + |hostName| {
            assert o[17] == hostName[17 - k];
          }
        }
        assert o[17] != "https://localhost:"[17];
      } else if |o| >= 18 {
        assert o[4] != "https://localhost:"[4];
      }
    }
    assert o != ManageOrigin by {
      if |o| == |ManageOrigin| {
        assert ManageOrigin[|ManageOrigin| - 12] == '.';
      }
    }
  }

  // ---------------------------------------------------------------------
  // `getManageUrl` and `shouldUseIframeUpload`
  // ---------------------------------------------------------------------

  /** `getManageUrl`. A URL with fewer than three '/' parts gives the text "undefined" as its host. */
  function GetManageUrl(figureManagementUrl: string): string
  {
    if EndsWith(figureManagementUrl, "/figure") then figureManagementUrl[..|figureManagementUrl| - |"/figure"|]
    else if StartsWith(figureManagementUrl, ManageOrigin) then ManageOrigin
    else
      var protocol := if StartsWith(figureManagementUrl, "http://") then "http://" else "https://";
      var parts := Split(figureManagementUrl, "/");
      protocol + (if |parts| > 2 then parts[2] else "undefined")
  }

  /** A trailing "/figure" is cut off, whatever comes before it. */
  lemma ManageUrlStripsFigure(base: string)
    ensures GetManageUrl(base + "/figure") == base
  {
    var u := base + "/figure";
    assert u[|u| - |"/figure"|..] == "/figure";
    assert u[..|u| - |"/figure"|] == base;
  }

  /** Any other URL on the management site maps to the site itself. */
  lemma ManageUrlCanonical(figureManagementUrl: string)
    requires StartsWith(figureManagementUrl, ManageOrigin) && !EndsWith(figureManagementUrl, "/figure")
    ensures GetManageUrl(figureManagementUrl) == ManageOrigin
  {
  }

  /** A leading '/' splits off an empty first part. */
  lemma SplitLeadingSlash(rest: string)
    ensures Split("/" + rest, "/") == [""] + Split(rest, "/")
  {
    SplitAfter("", '/', rest);
    assert "" + ['/'] + rest == "/" + rest;
  }

  /** "scheme//rest" splits into the scheme, an empty part and the parts of the rest. */
  lemma SplitSchemeSlashes(scheme: string, rest: string)
    requires '/' !in scheme
    ensures Split(scheme + "//" + rest, "/") == [scheme, ""] + Split(rest, "/")
  {
    SplitLeadingSlash(rest);
    SplitAfter(scheme, '/', "/" + rest);
    assert scheme + ['/'] + ("/" + rest) == scheme + "//" + rest;
  }

  /** A host followed by "/" and more splits off as the first '/' part. */
  lemma SplitHostSlash(host: string, tail: string)
    requires '/' !in host
    ensures Split(host + ("/" + tail), "/")[0] == host
  {
    SplitAfter(host, '/', tail);
    assert host + ['/'] + tail == host + ("/" + tail);
  }

  /** The first '/' part of "host/path" is the host. */
  lemma SplitHostFirst(host: string, path: string)
    requires '/' !in host && (path == "" || path[0] == '/')
    ensures Split(host + path, "/")[0] == host
  {
    if path == "" {
      assert host + path == host;
      SplitFree(host, '/');
    } else {
      assert path == "/" + path[1..];
      SplitHostSlash(host, path[1..]);
    }
  }

  /** The third '/' part of "scheme//host/path" is the host. */
  lemma HostPart(scheme: string, host: string, path: string)
    requires '/' !in scheme && '/' !in host
    requires path == "" || path[0] == '/'
    ensures var parts := Split(scheme + "//" + host + path, "/");
            |parts| > 2 && parts[2] == host
  {
    SplitSchemeSlashes(scheme, host + path);
    SplitHostFirst(host, path);
    assert scheme + "//" + host + path == scheme + "//" + (host + path);
  }

  /**
   * Elsewhere the manage URL is the protocol ("http://" when the URL uses
   * it, "https://" otherwise) followed by the URL's host.
   */
  lemma ManageUrlOrigin(scheme: string, host: string, path: string)
    requires '/' !in scheme && '/' !in host && (path == "" || path[0] == '/')
    requires var u := scheme + "//" + host + path; !EndsWith(u, "/figure") && !StartsWith(u, ManageOrigin)
    ensures var u := scheme + "//" + host + path;
            GetManageUrl(u) == (if StartsWith(u, "http://") then "http://" else "https://") + host
  {
    HostPart(scheme, host, path);
  }

  /** `shouldUseIframeUpload`. */
  predicate ShouldUseIframeUpload(figureUrl: string)
  {
    StartsWith(figureUrl, FiguresPrefix)
  }

  /** Figures on figures.figpack.org are uploaded through the iframe; local ones are not. */
  lemma IframeUploadSpec(path: string, port: string)
    ensures ShouldUseIframeUpload(FiguresPrefix + path)
    ensures !ShouldUseIframeUpload("http://localhost:" + port + path)
  {
    assert (FiguresPrefix + path)[..|FiguresPrefix|] == FiguresPrefix;
    var local := "http://localhost:" + port + path;
    if |FiguresPrefix| <= |local| {
      assert local[4] != FiguresPrefix[4];
    }
  }

  // ---------------------------------------------------------------------
  // `ParentMessageHandler`
  // ---------------------------------------------------------------------

  /** A message from the iframe; an empty type stands for a missing one. */
  datatype IncomingMessage = IncomingMessage(msgType: string, payload: Option<string>)

  /** A call of a registered handler with a message's payload. */
  datatype Delivery = Delivery(msgType: string, payload: string)

  /** An upload request posted to the iframe, with the origin it was addressed to. */
  datatype Posted = Posted(targetOrigin: string, figureUrl: string)

  class ParentMessageHandler {
    var iframeAttached: bool
    /** The iframe's origin; empty while none is known. */
    var iframeOrigin: string
    /** The message types with a registered handler. */
    var handlerTypes: set<string>
    /** Whether the ready promise is still unresolved. */
    var readyPending: bool
    var delivered: seq<Delivery>
    var sent: seq<Posted>

    constructor()
      ensures !iframeAttached && iframeOrigin == "" && handlerTypes == {} && readyPending
      ensures delivered == [] && sent == []
    {
      iframeAttached := false;
      iframeOrigin := "";
      handlerTypes := {};
      readyPending := true;
      delivered := [];
      sent := [];
    }

    /**
     * The message listener. A message from an untrusted origin changes
     * nothing. The first trusted origin is remembered. The first READY
     * message resolves the ready promise; any other message with a type and
     * a payload goes to the handler registered for its type, if any.
     */
    method Receive(origin: string, message: IncomingMessage)
      modifies this
      ensures !IsValidOrigin(origin) ==> unchanged(this)
      ensures IsValidOrigin(origin) ==> iframeOrigin == (if old(iframeOrigin) == "" then origin else old(iframeOrigin))
      ensures iframeAttached == old(iframeAttached) && handlerTypes == old(handlerTypes) && sent == old(sent)
      ensures var accepted := IsValidOrigin(origin) && message.msgType != "" && message.payload.Some?;
              var isReady := accepted && message.msgType == "READY" && old(readyPending);
              && readyPending == (old(readyPending) && !isReady)
              && delivered == old(delivered) +
                   (if accepted && !isReady && message.msgType in handlerTypes
                    then [Delivery(message.msgType, message.payload.value)] else [])
    {
      if !IsValidOrigin(origin) {
        return;
      }
      if iframeOrigin == "" {
        iframeOrigin := origin;
      }
      if message.msgType != "" && message.payload.Some? {
        if message.msgType == "READY" && readyPending {
          readyPending := false;
          return;
        }
        if message.msgType in handlerTypes {
          delivered := delivered + [Delivery(message.msgType, message.payload.value)];
        }
      }
    }

    method SetIframe(origin: string)
      modifies this
      ensures iframeAttached && iframeOrigin == origin
      ensures handlerTypes == old(handlerTypes) && readyPending == old(readyPending)
      ensures delivered == old(delivered) && sent == old(sent)
    {
      iframeAttached := true;
      iframeOrigin := origin;
    }

    method OnMessage(msgType: string)
      modifies this
      ensures handlerTypes == old(handlerTypes) + {msgType}
      ensures iframeAttached == old(iframeAttached) && iframeOrigin == old(iframeOrigin)
      ensures readyPending == old(readyPending) && delivered == old(delivered) && sent == old(sent)
    {
      handlerTypes := handlerTypes + {msgType};
    }

    /** An upload request is posted only when an iframe and its origin are known, and to that origin. */
    method SendUploadRequest(figureUrl: string)
      modifies this
      ensures sent == old(sent) + (if iframeAttached && iframeOrigin != "" then [Posted(iframeOrigin, figureUrl)] else [])
      ensures iframeAttached == old(iframeAttached) && iframeOrigin == old(iframeOrigin)
      ensures handlerTypes == old(handlerTypes) && readyPending == old(readyPending) && delivered == old(delivered)
    {
      if !iframeAttached || iframeOrigin == "" {
        return;
      }
      sent := sent + [Posted(iframeOrigin, figureUrl)];
    }

    method Cleanup()
      modifies this
      ensures !iframeAttached && iframeOrigin == "" && handlerTypes == {}
      ensures readyPending == old(readyPending) && delivered == old(delivered) && sent == old(sent)
    {
      handlerTypes := {};
      iframeAttached := false;
      iframeOrigin := "";
    }
  }

  /**
   * Once a handler has learnt its origin from a trusted message, a later
   * message, from whatever origin, leaves that origin in place.
   */
  method OriginIsLatched(h: ParentMessageHandler, first: string, second: string, message: IncomingMessage)
    requires IsValidOrigin(first) && h.iframeOrigin == ""
    modifies h
    ensures h.iframeOrigin == first
  {
    h.Receive(first, message);
    h.Receive(second, message);
  }

  /** READY resolves the ready promise once; a second READY goes to its handler like any message. */
  method ReadyOnce(origin: string, payload: string) returns (h: ParentMessageHandler)
    requires IsValidOrigin(origin)
    ensures !h.readyPending && h.delivered == [Delivery("READY", payload)]
  {
    h := new ParentMessageHandler();
    h.OnMessage("READY");
    h.Receive(origin, IncomingMessage("READY", Some(payload)));
    assert h.delivered == [];
    h.Receive(origin, IncomingMessage("READY", Some(payload)));
  }
}
