/** Listing a server's tools page by page. */
module McpListing {
  import opened Selection
  import opened Text

  const MAX_LIST_PAGES: nat := 64

  /** An entry without a usable name is `None`. */
  type Entry = Option<string>

  /** What one `tools/list` request brings: a failed call, a `tools` field that is no list, or a page.
      A `nextCursor` that is no string counts as none. */
  datatype Reply = Broken | NotAList | Page(entries: seq<Entry>, nextCursor: Option<string>)

  datatype Failure = CallFailed | ToolsNotAList | TooManyPages

  /** The server's reply to the k-th page request with the given cursor. */
  type Server = (nat, Option<string>) -> Reply

  /** The entries that name a tool, in order. */
  function Named(entries: seq<Entry>): seq<string> {
    if entries == [] then [] else
      Named(entries[..|entries| - 1]) +
      if entries[|entries| - 1].Some? && entries[|entries| - 1].value != "" then [entries[|entries| - 1].value] else []
  }

  predicate IsLast(reply: Reply)
    requires reply.Page?
  {
    reply.nextCursor.None? || reply.nextCursor.value == ""
  }

  /** The tools from the k-th page on. */
  function ListFrom(server: Server, k: nat, cursor: Option<string>): Result<seq<string>, Failure>
    decreases MAX_LIST_PAGES - k
  {
    if k >= MAX_LIST_PAGES then Err(TooManyPages) else
      match server(k, cursor)
      case Broken => Err(CallFailed)
      case NotAList => Err(ToolsNotAList)
      case Page(entries, next) =>
        if IsLast(server(k, cursor)) then Ok(Named(entries)) else After(Named(entries), ListFrom(server, k + 1, next))
  }

  /** What was listed before, then the rest - unless the rest fails. */
  function After(tools: seq<string>, rest: Result<seq<string>, Failure>): Result<seq<string>, Failure> {
    if rest.Err? then rest else Ok(tools + rest.value)
  }

  lemma AfterInTwoParts(a: seq<string>, b: seq<string>, rest: Result<seq<string>, Failure>)
    ensures After([], rest) == rest && After(a, After(b, rest)) == After(a + b, rest)
  {
    if rest.Ok? {
      assert [] + rest.value == rest.value;
      assert a + (b + rest.value) == a + b + rest.value;
    }
  }

  /** `list_tools`: a server that did not announce the tools capability is not asked. */
  method ListTools(announced: set<string>, server: Server) returns (r: Result<seq<string>, Failure>)
    ensures "tools" !in announced ==> r == Ok([])
    ensures "tools" in announced ==> r == ListFrom(server, 0, None)
  {
    hide Named;
    if "tools" !in announced {
      return Ok([]);
    }
    var tools: seq<string> := [];
    var cursor: Option<string> := None;
    AfterInTwoParts([], [], ListFrom(server, 0, None));
    for k := 0 to MAX_LIST_PAGES
      invariant ListFrom(server, 0, None) == After(tools, ListFrom(server, k, cursor))
    {
      var reply := server(k, cursor);
      if reply.Page? {
        AfterInTwoParts(tools, Named(reply.entries), ListFrom(server, k + 1, reply.nextCursor));
      }
      if reply.Broken? {
        return Err(CallFailed);
      }
      if reply.NotAList? {
        return Err(ToolsNotAList);
      }
      tools := tools + Named(reply.entries);
      if IsLast(reply) {
        return Ok(tools);
      }
      cursor := reply.nextCursor;
    }
    return Err(TooManyPages);
  }

  // ----- Servers that paginate -----

  /** The server deals out `pages` one after the other, each but the last with the cursor of the next. The last has
      no cursor, or an empty one. */
  ghost predicate Deals(server: Server, pages: seq<seq<Entry>>, cursors: seq<string>) {
    && |pages| == |cursors| + 1
    && (forall i :: 0 <= i < |cursors| ==> cursors[i] != "")
    && (forall i: nat :: i < |cursors| ==>
          server(i, CursorFor(cursors, i)) == Page(pages[i], Some(cursors[i])))
    && server(|cursors|, CursorFor(cursors, |cursors|)) in
         {Page(pages[|cursors|], None), Page(pages[|cursors|], Some(""))}
  }

  function CursorFor(cursors: seq<string>, i: nat): Option<string>
    requires i <= |cursors|
  {
    if i == 0 then None else Some(cursors[i - 1])
  }

  function AllNamed(pages: seq<seq<Entry>>): seq<string> {
    if pages == [] then [] else Named(pages[0]) + AllNamed(pages[1..])
  }

  lemma {:induction false} PageIsListed(server: Server, k: nat, cursor: Option<string>)
    ensures k >= MAX_LIST_PAGES ==> ListFrom(server, k, cursor) == Err(TooManyPages)
    ensures k < MAX_LIST_PAGES && server(k, cursor).Page? ==>
      var page := server(k, cursor);
      ListFrom(server, k, cursor)
        == if IsLast(page) then Ok(Named(page.entries))
           else After(Named(page.entries), ListFrom(server, k + 1, page.nextCursor))
  {
    hide Named;
  }

  lemma {:induction false} PagesFrom(server: Server, pages: seq<seq<Entry>>, cursors: seq<string>, k: nat)
    requires Deals(server, pages, cursors) && k < |pages|
    ensures ListFrom(server, k, CursorFor(cursors, k))
      == if |pages| <= MAX_LIST_PAGES then Ok(AllNamed(pages[k..])) else Err(TooManyPages)
    decreases |pages| - k
  {
    hide Named, ListFrom, AllNamed, Deals, CursorFor, IsLast, After;
    PageDealt(server, pages, cursors, k);
    PageIsListed(server, k, CursorFor(cursors, k));
    NamedFrom(pages, k);
    if k < |pages| - 1 {
      PagesFrom(server, pages, cursors, k + 1);
      AfterIs(Named(pages[k]), AllNamed(pages[k + 1..]));
    }
  }

  lemma AfterIs(tools: seq<string>, rest: seq<string>)
    ensures After(tools, Ok(rest)) == Ok(tools + rest) && After(tools, Err(TooManyPages)) == Err(TooManyPages)
  {}

  lemma PageDealt(server: Server, pages: seq<seq<Entry>>, cursors: seq<string>, k: nat)
    requires Deals(server, pages, cursors) && k < |pages|
    ensures k <= |cursors|
    ensures var page := server(k, CursorFor(cursors, k));
      && page.Page? && page.entries == pages[k]
      && (IsLast(page) <==> k == |pages| - 1)
      && (k < |pages| - 1 ==> k + 1 <= |cursors| && page.nextCursor == CursorFor(cursors, k + 1))
  {}

  lemma {:induction false} NamedFrom(pages: seq<seq<Entry>>, k: nat)
    requires k < |pages|
    ensures AllNamed(pages[k..]) == Named(pages[k]) + AllNamed(pages[k + 1..])
    ensures k == |pages| - 1 ==> AllNamed(pages[k..]) == Named(pages[k])
  {
    hide Named;
    assert pages[k..][1..] == pages[k + 1..];
    assert k == |pages| - 1 ==> pages[k + 1..] == [];
  }

  // ----- What is listed -----

  function Flat(pages: seq<seq<Entry>>): seq<Entry> {
    if pages == [] then [] else pages[0] + Flat(pages[1..])
  }

  /** The tools are the names of the entries that have one, in order, each as often as it occurs. */
  ghost predicate Lists(tools: seq<string>, entries: seq<Entry>) {
    exists ps: seq<nat> ::
      && |ps| == |tools| && Ascending(ps)
      && (forall i :: 0 <= i < |ps| ==> ps[i] < |entries| && entries[ps[i]] == Some(tools[i]))
      && (forall p: nat :: p < |entries| ==> (entries[p].Some? && entries[p].value != "" <==> p in ps))
  }

  function HasName(): Entry -> bool {
    (e: Entry) => e.Some? && e.value != ""
  }

  function Somes(tools: seq<string>): seq<Entry> {
    seq(|tools|, i requires 0 <= i < |tools| => Some(tools[i]))
  }

  lemma {:induction false} NamedIsKept(entries: seq<Entry>)
    ensures Somes(Named(entries)) == Kept(entries, HasName())
  {
    if entries != [] {
      NamedIsKept(entries[..|entries| - 1]);
    }
  }

  lemma NamedLists(entries: seq<Entry>)
    ensures Lists(Named(entries), entries)
  {
    hide Named, Kept;
    NamedIsKept(entries);
    var ps := KeptIsPicked(entries, HasName());
  }

  lemma {:induction false} NamedTwice(a: seq<Entry>, b: seq<Entry>)
    ensures Named(a + b) == Named(a) + Named(b)
    decreases |b|
  {
    if b == [] {
      assert a + b == a;
    } else {
      NamedTwice(a, b[..|b| - 1]);
      assert (a + b)[..|a + b| - 1] == a + b[..|b| - 1];
    }
  }

  lemma {:induction false} AllNamedIsFlat(pages: seq<seq<Entry>>)
    ensures AllNamed(pages) == Named(Flat(pages))
  {
    hide Named;
    if pages != [] {
      AllNamedIsFlat(pages[1..]);
      NamedTwice(pages[0], Flat(pages[1..]));
    } else {
      assert Named([]) == [] by { NothingNamed(); }
    }
  }

  lemma NothingNamed()
    ensures Named([]) == []
  {}

  /** Every tool with a name on every page is listed, in order, exactly when there are at most 64 pages. */
  lemma ListingIsComplete(server: Server, pages: seq<seq<Entry>>, cursors: seq<string>)
    requires Deals(server, pages, cursors)
    ensures |pages| <= 64 ==>
      ListFrom(server, 0, None).Ok? && Lists(ListFrom(server, 0, None).value, Flat(pages))
    ensures |pages| > 64 ==> ListFrom(server, 0, None) == Err(TooManyPages)
  {
    hide Lists, ListFrom;
    PagesFrom(server, pages, cursors, 0);
    assert pages[0..] == pages;
    AllNamedIsFlat(pages);
    NamedLists(Flat(pages));
  }

  /** The server deals out these pages, each with the cursor of the next, and then something that is no page. */
  ghost predicate Breaks(server: Server, pages: seq<seq<Entry>>, cursors: seq<string>) {
    && |pages| == |cursors| < 64
    && (forall i :: 0 <= i < |cursors| ==> cursors[i] != "")
    && (forall i: nat :: i < |pages| ==> server(i, CursorFor(cursors, i)) == Page(pages[i], Some(cursors[i])))
    && !server(|pages|, CursorFor(cursors, |pages|)).Page?
  }

  /** A page that cannot be had fails the listing, whatever was listed before it. */
  lemma BadPageFails(server: Server, pages: seq<seq<Entry>>, cursors: seq<string>)
    requires Breaks(server, pages, cursors)
    ensures var bad := server(|pages|, CursorFor(cursors, |pages|));
      ListFrom(server, 0, None) == Err(if bad.Broken? then CallFailed else ToolsNotAList)
  {
    hide ListFrom;
    BreaksFrom(server, pages, cursors, 0);
  }

  lemma {:induction false} BreaksFrom(server: Server, pages: seq<seq<Entry>>, cursors: seq<string>, k: nat)
    requires Breaks(server, pages, cursors) && k <= |pages|
    ensures |pages| == |cursors|
    ensures var bad := server(|pages|, CursorFor(cursors, |pages|));
      ListFrom(server, k, CursorFor(cursors, k)) == Err(if bad.Broken? then CallFailed else ToolsNotAList)
    decreases |pages| - k
  {
    hide Named, ListFrom, IsLast, Breaks, CursorFor;
    SameLength(server, pages, cursors);
    var cursor := CursorFor(cursors, k);
    BadReplyFails(server, k, cursor);
    if k < |pages| {
      PageBeforeBreak(server, pages, cursors, k);
      PageIsListed(server, k, cursor);
      BreaksFrom(server, pages, cursors, k + 1);
    }
  }

  lemma SameLength(server: Server, pages: seq<seq<Entry>>, cursors: seq<string>)
    requires Breaks(server, pages, cursors)
    ensures |pages| == |cursors| < MAX_LIST_PAGES && !server(|pages|, CursorFor(cursors, |pages|)).Page?
  {}

  lemma PageBeforeBreak(server: Server, pages: seq<seq<Entry>>, cursors: seq<string>, k: nat)
    requires Breaks(server, pages, cursors) && k < |pages|
    ensures k + 1 <= |cursors|
    ensures var page := server(k, CursorFor(cursors, k));
      page.Page? && !IsLast(page) && page.nextCursor == CursorFor(cursors, k + 1)
  {}

  lemma BadReplyFails(server: Server, k: nat, cursor: Option<string>)
    ensures k < MAX_LIST_PAGES && server(k, cursor).Broken? ==> ListFrom(server, k, cursor) == Err(CallFailed)
    ensures k < MAX_LIST_PAGES && server(k, cursor).NotAList? ==> ListFrom(server, k, cursor) == Err(ToolsNotAList)
  {}

  /** A server that always has a next page is given up on, not followed for ever. */
  lemma {:induction false} EndlessListingFails(server: Server, k: nat, cursor: Option<string>)
    requires forall i: nat, c :: server(i, c).Page? && !IsLast(server(i, c))
    ensures ListFrom(server, k, cursor) == Err(TooManyPages)
    decreases MAX_LIST_PAGES - k
  {
    if k < MAX_LIST_PAGES {
      EndlessListingFails(server, k + 1, server(k, cursor).nextCursor);
    }
  }
}
