# A verified model of weiyeston

Weiyeston is a multi-tenant back office for WeChat official accounts. This project models
five parts of it in Dafny 4.11 and proves what they promise. `dafny verify dfyconfig.toml`
checks everything.

1. **The HTML to TipTap converter** (`HtmlText`, `HtmlTree`, `InlineContent`, `InlineText`,
   `InlineMarks`, `BlockConverter`, `BlockOutline`, `BlockText`, `ListMultiplicity`). The recursive conversion of an
   arbitrary finite node tree, with its result slices, mark slices and mark maps on the
   heap. `extractText` is the reference for "the text of a tree". The *ink* of a string is
   its non-white-space characters. One main result lists, by tag names and attributes, the
   nodes that have a block, and shows that the output is just those blocks, each with the
   texts below its node and their marks. The other is an account that balances for every
   tree, in order: the ink of the tree is what is carried over shuffled with what is
   dropped, and the ink of the output is the same text shuffled with what is repeated.
   Functions of the input say what is carried, what is dropped (children other than `p`
   and text in a blockquote, children other than `li` in a list, text under `br`, `hr`,
   `img` and non-element nodes) and what is repeated (lists nested directly in a list item).
2. **The rate limiter** (`TokenBucket`, `BucketStore`). One bucket over every run of timed
   requests, the store with its eviction of idle buckets, and the Retry-After header.
3. **WeChat tokens over the account table** (`AccountTable`, `WechatTokens`,
   `AccountInvariants`, `AccountOwnership`, `ComponentToken`). Every handler is one step at one instant on the
   table and the token cache; runs are arbitrary sequences of handlers.
4. **Single-flight refresh** (`RefreshClient`, `RefreshServer`, `RefreshProtocol`,
   `RefreshOutcome`). The
   client's queue and leader flag against the server's one slot per user, with the server's
   read, comparison and write as separate steps.
5. **Channels and votes** (`ChannelRows`, `ChannelTree`, `ChannelForest`,
   `ChannelFlattening`, `ChannelQuery`, `VoteStatements`, `VoteInterleavings`). The linked
   forest built from a flat list, the recursive query that feeds it and the flattening that
   consumes it; and vote submissions interleaved between SQL statements.

Code that updates things step by step is a class or a method with loops, proved equal to a
specification function; the laws are lemmas about those functions.

Where the code does something other than what its comments or interface suggest, the model
follows the code, and a lemma shows it:

- A blockquote loses the text of its `div` children (`BlockText.BlockquoteLosesDiv`), and the
  text of a nested list is emitted twice (`BlockText.NestedListRepeatsText`).
- The authorisation-update event writes new tokens and then writes the row it had loaded
  before over them, so the tokens are lost: no later reply shows that there was such an event
  (`AccountInvariants.UpdateEventLosesTokens`).
- A cancelled account is still served its token, and is connected again by the next refresh
  (`AccountInvariants.CancelledAccountIsStillServed`).
- Editing the secret of a manual account leaves its old token in the cache, from where it is
  handed out as long as the entry lives (`AccountInvariants.CredentialEditAndCache`,
  `AccountInvariants.StaleManualToken`).
- An empty component ticket after a good one blocks the fallback to the database, and the
  component token lapses (`ComponentToken.EmptyTicketLapses`); `ComponentToken.PresentExactly`
  says when it does, in terms of the events.
- A refresh that yields an empty access token leaves the waiting requests unsettled
  (`RefreshClient.QueueSettledExactly`).
- A logout that falls between the server's look at a refresh token and its renewal is undone by
  the renewal (`RefreshOutcome.LogoutFinalExactly`).
- A user's submissions exceed the vote limit, up to an exact bound, unless they come one at a
  time with one choice each (`VoteInterleavings.UserBoundReached`,
  `VoteInterleavings.LimitKeptExactly`).

## Model

| member | source | states |
|---|---|---|
| HtmlText.TrimSpaceKeepsInk | tools/migrate/main.go:756-759 | trimming loses no ink, and gives the empty string exactly for blank text |
| HtmlText.TrimSpaceCuts | tools/migrate/main.go:756-759 | trimming takes a blank prefix and a blank suffix and leaves no blank at either end |
| HtmlTree.Walk | tools/migrate/main.go:1034-1041 | the walk appends exactly the text of the tree to the builder |
| HtmlTree.ExtractTextOf | tools/migrate/main.go:1031-1044 | the result is the text of the tree in document order |
| HtmlTree.GetAttrExact | tools/migrate/main.go:1021-1029 | the value of the first attribute of that name, or the empty string |
| InlineContent.AppendMark | tools/migrate/main.go:968-973 | the result is a new slice with the old marks and the new one; the old slice is untouched |
| InlineContent.CopyMark | tools/migrate/main.go:976-982 | the copy is a new map with the same contents |
| InlineContent.CopyMarks | tools/migrate/main.go:895-901 | a new slice of new maps with the same contents |
| InlineContent.AppendText | tools/migrate/main.go:891-903 | the new text node shows the marks in force and shares no mark cell with any other item |
| InlineContent.CollectChild | tools/migrate/main.go:884-963 | one child appends what the specification says for its kind and name; every mark cell added is new |
| InlineContent.CollectTextFromNode | tools/migrate/main.go:882-965 | the walk appends the specified inline nodes and no two items share a mark slice or map |
| InlineContent.CollectInlineContent | tools/migrate/main.go:870-878 | the content is never empty and its mark cells are held by nobody else |
| InlineText.InlineFollowsLeaves | tools/migrate/main.go:882-965 | the output is the reachable leaves in document order, breaks and images included, each text with exactly the marks of its own ancestors, outermost first, without exactly those blank texts that come before anything else |
| InlineText.VisibleAndHidden | tools/migrate/main.go:1031-1044 | the whole text is the visible and the hidden text shuffled, each in order |
| InlineText.InlineContentText | tools/migrate/main.go:870-878 | visible text equals a blank prefix followed by the texts of the content; the content is not empty |
| InlineText.InlineInkExact | tools/migrate/main.go:905-963 | the ink of an element is that of its inline content and the hidden ink, each in order, and survives conversion if and only if none of it is hidden |
| InlineMarks.ContentExact | tools/migrate/main.go:870-965 | the content of a block depicts the leaves below its element, in order and without the blank texts in front: each text with one mark for each marking ancestor, outermost first, each break, each image with its source |
| InlineMarks.MarkedExactly | tools/migrate/main.go:905-944 | a text is bold if and only if an ancestor is `strong` or `b`, and so on for every mark; a link has the `href` of its `a`, and its `target` if that is not empty |
| BlockConverter.HeadingLevel | tools/migrate/main.go:782-783 | the level is the digit of the tag, between 1 and 6 |
| BlockConverter.ConvertBlock | tools/migrate/main.go:754-866 | exactly the specified blocks are appended to the result; which they are is `BlockOutline.OutlineExact` |
| BlockConverter.ConvertAll | tools/migrate/main.go:769-771 | a sibling list appends its blocks in order |
| BlockConverter.CollectQuote | tools/migrate/main.go:820-836 | the body of a blockquote is one paragraph for each `p` and each non-blank text child |
| BlockConverter.CollectListItems | tools/migrate/main.go:985-1018 | one list item for every `li` child, in order |
| BlockConverter.CollectItem | tools/migrate/main.go:991-1015 | an item is the paragraph of everything below the `li`, then its direct nested lists |
| BlockConverter.ConvertFragment | tools/migrate/main.go:739-742 | the blocks of a fragment are those of its nodes in order |
| BlockOutline.OutlineExact | tools/migrate/main.go:754-866 | for every fragment the output, block by block and at the right depth, is what the nodes that have a block call for by tag and attributes: paragraph, heading of that level, image with `src` and `alt`, bullet or ordered list, item, blockquote, code with the exact text, empty paragraph for `br` and `hr`, trimmed text |
| BlockOutline.ImagesExact | tools/migrate/main.go:790-804 | the image blocks are the reachable `img` elements, once each and in order, with their `src` and a non-empty `alt` |
| BlockText.ConvertBlockBalances | tools/migrate/main.go:754-866 | for every node: the ink in is what is carried over and what is dropped, the ink out is what is carried over and what is repeated, each in order |
| BlockText.ConversionInk | tools/migrate/main.go:739-742 | the ink of a converted fragment is that of the text the input is described to carry, in order |
| BlockText.ListInk | tools/migrate/main.go:985-1018 | the ink of a converted list is that of each item followed by its nested lists, in order |
| BlockText.ConversionConservesInk | tools/migrate/main.go:739-742 | the same account for every fragment; with nothing repeated the output is a part of the input in order, with nothing dropped the input is a part of the output in order |
| BlockText.ConversionKeepsTextExactly | tools/migrate/main.go:754-866 | a fragment without two equal non-space characters, or with nothing to drop, or with nothing to repeat, keeps its ink in order if and only if there is neither something to drop nor to repeat |
| BlockText.BlockquoteLosesDiv | tools/migrate/main.go:821-836 | a `div` in a blockquote is lost |
| BlockText.NestedListRepeatsText | tools/migrate/main.go:995-1010 | a list nested in a list item does not keep its text once |
| BlockText.SecondCopyStandsIn | tools/migrate/main.go:754-866 | a fragment in which a repeated character makes up for an equal one that is dropped |
| ListMultiplicity.ParagraphWeight | tools/migrate/main.go:991-997 | the paragraph of an item holds each non-blank visible leaf below it exactly once |
| ListMultiplicity.MultiplicityIsChainDepth | tools/migrate/main.go:985-1018 | each non-blank leaf occurs in a converted list as often as its direct item chain is deep |
| ListMultiplicity.ChainedLeavesAreTheLeaves | tools/migrate/main.go:985-1018 | the leaves annotated with chain depths are all visible leaves, each once, in order |
| ListMultiplicity.OneItemPerLi | tools/migrate/main.go:999-1015 | there are as many list items as `li` elements reachable by direct nesting |
| TokenBucket.BurstOf | internal/middleware/ratelimit.go:72-75 | the capacity is at least 1, and the configured burst exactly when that is positive |
| TokenBucket.BucketCell.Allow | internal/middleware/ratelimit.go:31-54 | admission, wait and new bucket contents |
| TokenBucket.LevelIsLeastAllowance | internal/middleware/ratelimit.go:35-49 | the tokens before a decision are the minimum over all windows of burst plus inflow less admissions |
| TokenBucket.AdmittedIffFitsEveryWindow | internal/middleware/ratelimit.go:46-49 | a request is admitted if and only if it exceeds no window that ends with it |
| TokenBucket.WindowBound | internal/middleware/ratelimit.go:31-54 | no window admits more than the burst plus the rate over its length |
| TokenBucket.TokensInRange | internal/middleware/ratelimit.go:38-49 | tokens stay between 0 and the burst |
| TokenBucket.WaitIsExact | internal/middleware/ratelimit.go:51-53 | after a denial and any further denials, a request is admitted if and only if the computed wait has passed |
| TokenBucket.RetryAfterSuffices | internal/middleware/ratelimit.go:134-135 | a request that honours Retry-After is admitted if no other was admitted in between |
| TokenBucket.RetryAfterExact | internal/middleware/ratelimit.go:135 | the header is the one whole number above the wait by at most one second |
| BucketStore.Store.GetOrCreate | internal/middleware/ratelimit.go:64-86 | the key's bucket, or a full one; other keys are unchanged |
| BucketStore.Store.Cleanup | internal/middleware/ratelimit.go:89-102 | exactly the buckets idle for longer than the limit are removed |
| BucketStore.Store.Handle | internal/middleware/ratelimit.go:121-144 | one request: decision, Retry-After, and the new contents of the store |
| BucketStore.StoredExactly | internal/middleware/ratelimit.go:64-102 | after any run there is a bucket for just the keys that no cleanup since their last request found idle for too long |
| BucketStore.BucketOfKey | internal/middleware/ratelimit.go:64-86 | without eviction each bucket is the one its own key's requests leave behind |
| BucketStore.PassesByKey | internal/middleware/ratelimit.go:129-134 | the store decides a request as a single bucket would on that key's requests |
| BucketStore.EvictionInvisible | internal/middleware/ratelimit.go:88-102 | if a bucket refills within the idle limit, eviction changes no decision of any run |
| BucketStore.EvictionVisible | internal/middleware/ratelimit.go:98-100 | if it does not, for any rate, a run is decided differently |
| BucketStore.EvictionInvisibleExactly | internal/middleware/ratelimit.go:112-119 | eviction goes unnoticed by all runs if and only if rate times idle limit is at least the burst |
| AccountTable.FirstIdFinds | internal/repository/account/account.go:223-237 | a lookup finds a matching live row if there is one |
| AccountTable.Repo.Create | internal/repository/account/account.go:21-38 | the row is appended under a new id |
| AccountTable.Repo.Find | internal/repository/account/account.go:279-293 | the first live row with the property, or none |
| AccountTable.Repo.Update | internal/repository/account/account.go:89-118 | a live row takes all given columns but keeps its tenant |
| AccountTable.Repo.UpdateToken | internal/repository/account/account.go:296-303 | a live row takes the tokens, the expiry and status 1 |
| AccountTable.Repo.UpdateAuthStatus | internal/repository/account/account.go:306-311 | a live row takes the status |
| AccountTable.Repo.SoftDelete | internal/repository/account/account.go:265-276 | a live row is marked deleted, and the result says whether there was one |
| WechatTokens.Handlers.OnAuthorized | internal/service/wechat/wechat.go:297-394 | new table, cache and reply of an authorisation |
| WechatTokens.Handlers.OnUpdateAuthorized | internal/service/wechat/wechat.go:397-446 | the two writes leave only the permissions changed |
| WechatTokens.Handlers.OnUnauthorized | internal/service/wechat/wechat.go:449-470 | status 3 and no cached token; unknown accounts are ignored |
| WechatTokens.Handlers.GetToken | internal/service/wechat/wechat.go:206-273 | token from cache, row or refresh, with the resulting table and cache |
| WechatTokens.Handlers.Create | internal/handler/api/account.go:234-327 | checks, refusals and the new manual row |
| WechatTokens.Handlers.Update | internal/handler/api/account.go:474-624 | checks, refusals and the edited row |
| WechatTokens.Handlers.Delete | internal/handler/api/account.go:653-707 | the row is deleted together with its cached token, for its tenant; see `AccountOwnership.DeleteExact` |
| AccountInvariants.TableAlwaysSound | internal/handler/api/account.go:250-299 | after every run: platform rows are those with an authorizer AppId, live ones never share it, live manual rows have status 1, and no two of a tenant share an AppId |
| AccountInvariants.HandleKeepsTable | internal/service/wechat/wechat.go:340-380 | every handler keeps those invariants |
| AccountInvariants.CacheAlwaysSound | internal/service/wechat/wechat.go:267-270 | after every run each cache entry belongs to a live row, and for a platform row holds its token and expires no later |
| AccountInvariants.TokenHandedOutIsCurrent | internal/service/wechat/wechat.go:206-233 | every token handed out for a platform account is its live row's current, unexpired token |
| AccountInvariants.AuthorizedTokenIsServed | internal/service/wechat/wechat.go:340-388 | after an authorisation the account has status 1 and that very token is handed out until it expires |
| AccountInvariants.CancelledAccountIsStillServed | internal/service/wechat/wechat.go:448-463 | after a cancellation the token is handed out until it expires, and the next refresh resets the status |
| AccountInvariants.UpdateEventLosesTokens | internal/service/wechat/wechat.go:415-436 | after the two writes of an update event, every run of further events gets the replies it would have got without the event |
| AccountInvariants.CredentialEditAndCache | internal/handler/api/account.go:566-616 | after a credential edit in any run, whatever handlers follow that do not edit or delete the account again, and unless the cached token happens to be the new one: a token request gets nothing but the row's token if and only if the cache entry of the time of the edit has expired or never was |
| AccountInvariants.StaleManualToken | internal/handler/api/account.go:587-616 | a run after which a replaced token is handed out |
| AccountOwnership.OnlyConcernedTouch | internal/handler/api/account.go:653-707 | in every world, a handler changes a row or its cache entry only if it is called for it: by its tenant and id, for its authorizer AppId, or for its token |
| AccountOwnership.OwnerStays | internal/repository/account/account.go:89-118 | no handler moves a row to another tenant or authorizer AppId, or changes a deleted row |
| AccountOwnership.RunsTouchOnlyTheirOwn | internal/handler/api/account.go:474-707 | over any run without a handler called for it, a row and its cache entry stay the same |
| AccountOwnership.TenantsAreIsolated | internal/handler/api/account.go:672-681 | whatever other tenants do through the account API, in any run, a row and its cache entry stay the same |
| AccountOwnership.DeleteExact | internal/handler/api/account.go:645-707 | a deletion succeeds if and only if the tenant owns the live row; then just that row is deleted and just its cache entry is gone, otherwise nothing changes, with the answer that fits |
| AccountOwnership.CreateExact | internal/handler/api/account.go:234-327 | an account is created if and only if the AppId starts with `wx`, no active manual account of the tenant has it, and WeChat accepts the credentials; with all columns of the new row |
| AccountOwnership.UpdateExact | internal/handler/api/account.go:474-624 | an edit succeeds if and only if the tenant owns the live row and the change is allowed; then just that row changes, in just the given columns and, for new credentials, the token |
| AccountOwnership.EditRefusals | internal/handler/api/account.go:509-590 | which answer an edit by the owner is refused with |
| AccountOwnership.AuthorizeKnown | internal/service/wechat/wechat.go:340-388 | an authorisation of a known account sets tokens, status and permissions of its row and its cache entry for 7200 seconds, and nothing else |
| AccountOwnership.AuthorizeUnknown | internal/service/wechat/wechat.go:351-377 | one of an unknown account adds a row for the tenant of the pre-authorisation code and caches nothing |
| AccountOwnership.AuthorizeRefused | internal/service/wechat/wechat.go:318-329 | without a tenant, or with a short AppId, nothing changes |
| AccountOwnership.UnauthorizeKnown | internal/service/wechat/wechat.go:449-470 | a cancellation sets status 3 and drops the cached token of just that account |
| AccountOwnership.TokenRequestExact | internal/service/wechat/wechat.go:206-273 | where the token of a request comes from, and what is stored and cached for how long |
| AccountOwnership.CacheTransparentExactly | internal/service/wechat/wechat.go:206-233 | in every run a token request gets the answer it would get with an empty cache, if and only if the account is not a manual one with a live cache entry other than its row's unexpired token |
| ComponentToken.TokenService.constructor | internal/service/wechat/wechat.go:132-158 | one refresh at the start, then the ticker |
| ComponentToken.TokenService.Refresh | internal/service/wechat/wechat.go:169-201 | a new token unless neither cache nor database has a ticket |
| ComponentToken.TokenService.HandleComponentVerifyTicket | internal/service/wechat/wechat.go:278-294 | the ticket is cached and saved, then the token is refreshed |
| ComponentToken.TokenService.GetComponentAccessToken | internal/service/wechat/wechat.go:105-119 | the cached token, after a refresh if there was none |
| ComponentToken.RefreshUsesLastTicket | internal/service/wechat/wechat.go:173-185 | cache with database fallback always yields the last ticket received |
| ComponentToken.RequestServedExactly | internal/service/wechat/wechat.go:105-119 | in any run a request gets a token if and only if one is cached or the last ticket received is not empty; a missing one is made for 110 minutes |
| ComponentToken.CoverEndsOnlyAtTicks | internal/service/wechat/wechat.go:145-150 | no event but a tick ends the ten-minute margin, and a tick does so exactly if the last ticket is empty and the token is not made at that instant |
| ComponentToken.CoverLastsExactly | internal/service/wechat/wechat.go:132-154 | once there is a margin, it lasts through a run if and only if every tick of the run finds a ticket, or a token made at that instant |
| ComponentToken.PresentExactly | internal/service/wechat/wechat.go:132-201 | from a tick or ticket event with a ticket at hand on, the token is present at every instant if and only if at every instant some such event is less than 110 minutes ago |
| ComponentToken.TokenNeverLapses | internal/service/wechat/wechat.go:278-294 | after a tick or ticket event with a ticket at hand, and while every tick has one, the token is present at every instant up to ten minutes beyond the next tick |
| ComponentToken.NoEmptyTicketNoLapse | internal/service/wechat/wechat.go:278-294 | if no empty ticket arrives after a tick or ticket event with a ticket at hand, the token does not lapse |
| ComponentToken.CoverKeepsTokenPresent | internal/service/wechat/wechat.go:145-150 | while the margin lasts the token is present |
| ComponentToken.EmptyTicketLapses | internal/repository/ticket/ticket.go:26-39 | a run with an empty second ticket after which the token is gone |
| RefreshClient.Client.ProcessQueue | web/admin/src/api/client.ts:27-36 | every waiting promise is treated once and the queue is emptied; what that means for each request is `RefreshOutcome.RequestOutcome` |
| RefreshClient.Client.OnUnauthorized | web/admin/src/api/client.ts:51-63 | a 401 is rejected, queued, or makes its request the leader |
| RefreshClient.Client.OnRefreshSucceeded | web/admin/src/api/client.ts:73-88 | tokens are stored, the queue resolved, the leader sent again |
| RefreshClient.Client.OnRefreshFailed | web/admin/src/api/client.ts:81-88 | the queue is rejected, tokens are removed, the leader fails |
| RefreshClient.QueueSettledExactly | web/admin/src/api/client.ts:27-36 | all waiting promises are settled once if and only if the refresh did not end with an empty token |
| RefreshServer.Lifetime | internal/service/auth.go:72-75 | a positive setting is kept, any other counts as a week |
| RefreshServer.SlotStore.GetRefreshToken | internal/service/auth.go:89-96 | the live token of the user, or the empty string |
| RefreshServer.SlotStore.GenerateRefreshToken | internal/service/auth.go:69-80 | the slot holds the new token, whatever it held |
| RefreshServer.SlotStore.RevokeRefreshToken | internal/service/auth.go:83-86 | the slot is removed |
| RefreshServer.SlotStore.Refresh | internal/handler/api/auth.go:237-300 | only the current token is accepted, it is replaced, and other users are unaffected |
| RefreshServer.RotatedTokenLives | internal/service/auth.go:69-80 | a new token is the user's for exactly its lifetime, and the old one no more |
| RefreshProtocol.UndisturbedRefresh | internal/handler/api/auth.go:270-300 | the three server steps in a row do to the slot, and answer, what the refresh handler does |
| RefreshProtocol.TokensAlwaysAgree | internal/handler/api/auth.go:270-300 | in every reachable state the client's and the presented token are current |
| RefreshProtocol.PresentedTokenIsCurrent | web/admin/src/api/client.ts:62-71 | a refresh starts only while none is under way, and presents the token the client holds, which is the slot's unless the slot is empty, never a rotated one |
| RefreshProtocol.MismatchNeverSeen | internal/handler/api/auth.go:277-280 | the server never finds a different token in the slot |
| RefreshProtocol.LoginElsewhereBreaksAgreement | internal/handler/api/auth.go:187-192 | at any moment of a run, a login from another session breaks the agreement if and only if the client or a refresh under way has a token |
| RefreshProtocol.AlwaysCounted | web/admin/src/api/client.ts:51-88 | queue and leader are consistent, and refreshes and sends are accounted for, in every reachable state |
| RefreshProtocol.RefreshesAndSendsBounded | web/admin/src/api/client.ts:51-80 | N requests cause at most N refreshes and N * (N + 1) sends; a non-empty queue means a refresh is under way |
| RefreshProtocol.WaitersSettledOnce | web/admin/src/api/client.ts:52-60 | a refresh that ends settles every waiting request exactly once, given a non-empty token |
| RefreshOutcome.RequestOutcome | web/admin/src/api/client.ts:38-96 | in every reachable state, what each event makes of each request, queue and leader aside: a first 401 makes it wait or lead, a successful refresh sends it again once with the new token, a failed one ends it, and all else leaves it alone |
| RefreshOutcome.SentAgainExactly | web/admin/src/api/client.ts:56-59 | a request that waits or leads is sent again, with the new token and one more attempt, if and only if the refresh ends with new tokens (for one that waits: with an access token that is not empty) |
| RefreshOutcome.GivenUpOnlyFor | web/admin/src/api/client.ts:51-94 | a request ends if and only if it gets another answer, a second 401, or waits for or leads a refresh that fails |
| RefreshOutcome.TokensHeld | web/admin/src/api/client.ts:70-88 | which tokens the client holds after each event; the renewed refresh token is the slot's |
| RefreshOutcome.LogoutFinalExactly | internal/handler/api/auth.go:490-515 | short of a login, the slot stays empty after a logout in every continuation if and only if no refresh was past the server's look at the slot |
| ChannelRows.DepthBelowLength | internal/handler/api/cms.go:222-227 | a parent chain that ends is shorter than the list |
| ChannelTree.MakeNodes | internal/handler/api/cms.go:201-218 | one new node for every id; of equal ids the last row wins |
| ChannelTree.LinkNode | internal/handler/api/cms.go:221-230 | one row is appended to its parent's children, or to the roots |
| ChannelTree.LinkNodes | internal/handler/api/cms.go:220-231 | every node's children are the rows that hang under it, in list order |
| ChannelTree.BuildChannelTree | internal/handler/api/cms.go:197-234 | the linked forest and its roots, for every list |
| ChannelForest.NodesDenote | internal/handler/api/cms.go:220-231 | below rows whose chains end, the linked nodes spell out finite trees |
| ChannelForest.BuildForest | internal/handler/api/cms.go:254-259 | the roots spell out exactly the forest of the list |
| ChannelForest.FlattenTree | web/admin/src/pages/cms/ChannelList.tsx:91-100 | the entries in pre-order with depth and indented name |
| ChannelFlattening.SiblingsKeepOrder | internal/handler/api/cms.go:220-231 | the roots, and the children of every row whose chain ends, are listed in list order |
| ChannelFlattening.ListedOnceIffRooted | internal/handler/api/cms.go:220-231 | a row is listed exactly once if its parent chain ends, and never if it is on or below a cycle |
| ChannelFlattening.EntriesSitUnderParents | web/admin/src/pages/cms/ChannelList.tsx:93-98 | every entry that is not at the margin sits directly under its parent's entry |
| ChannelFlattening.DepthsAreChainLengths | web/admin/src/pages/cms/ChannelList.tsx:94 | the depth of an entry is the length of its row's chain; its title is the name after two no-break spaces for every level |
| ChannelFlattening.MarginExactly | internal/handler/api/cms.go:222-230 | at the margin stand exactly the rows without a parent and those whose parent is not in the list |
| ChannelQuery.GetChannelTree | internal/handler/api/cms.go:761-777 | the iteration ends, and yields each live row with a live chain to a root of the account exactly once, ordered by level and sort order |
| ChannelQuery.WorkingTableCount | internal/handler/api/cms.go:766-771 | iteration k holds exactly the rows at depth k, once each |
| ChannelQuery.WorkingTablesRunDry | internal/handler/api/cms.go:766-771 | an iteration past the number of rows is empty, parent cycles included |
| ChannelQuery.RootsAreParentless | internal/handler/api/cms.go:222-230 | fed by the query, the roots are the parentless rows and the orphan branch is never taken |
| ChannelQuery.PageShowsReachedRows | internal/handler/api/cms.go:243-254 | from table to page: each reached row is shown exactly once and nothing else is |
| ChannelQuery.PageShowsSiblingsInOrder | internal/handler/api/cms.go:771 | on the page, the roots and the children of every row are ordered by level and sort order |
| VoteStatements.VoteRepo.CountVotesByUser | internal/handler/api/vote.go:818-823 | the number of the user's records for the vote |
| VoteStatements.VoteRepo.SubmitVote | internal/handler/api/vote.go:795-816 | insert and two counter updates, or nothing if a foreign key fails |
| VoteStatements.VoteRepo.HandleSubmit | internal/handler/api/vote.go:557-690 | a submission that is not admissible changes nothing and is answered with its first violation; an admissible one records and counts its options in order, up to the first that does not exist, and nothing else |
| VoteStatements.CheckExact | internal/handler/api/vote.go:557-666 | the handler goes on if and only if options and openid are given, the vote exists, runs, is within its times, the choices fit and the user has records left; otherwise it names the first violation |
| VoteInterleavings.AloneLikeTheHandler | internal/handler/api/vote.go:667-683 | statement by statement, a handler that nobody interleaves with does what the handler method does, to its end |
| VoteInterleavings.ThreadsWereAdmissible | internal/handler/api/vote.go:598-666 | in every interleaving, each handler past the checks began as an admissible submission |
| VoteInterleavings.BalancedRun | internal/handler/api/vote.go:795-816 | in every interleaving, each counter plus the bumps still due equals its number of records |
| VoteInterleavings.CountersMatchAtRest | internal/handler/api/vote.go:807-813 | when no bump is due, all counters equal the records |
| VoteInterleavings.HandlerKeepsCounters | internal/handler/api/vote.go:667-683 | an undisturbed handler leaves the counters equal to the records, even when it stops half way |
| VoteInterleavings.UserRecordsBounded | internal/handler/api/vote.go:645-683 | with at most c handlers of a user past the check, the user's records never exceed `MaxVotes - 1 + c * MaxChoices`, or the number at the start |
| VoteInterleavings.UserBoundReached | internal/handler/api/vote.go:645-683 | for every c, every number of records below the limit and every accepted choice of options there is a run that reaches the bound |
| VoteInterleavings.SingleChoiceKeepsLimit | internal/handler/api/vote.go:628-635 | one at a time, a vote with one choice never exceeds `MaxVotes` |
| VoteInterleavings.LimitKeptExactly | internal/handler/api/vote.go:628-683 | for a user who may vote, all runs with at most c handlers keep `MaxVotes` if and only if c is 1 and the vote allows one choice, that is, c times the choices is at most 1 |

## Left out

- The HTML parser, JSON marshalling and the copying of rows from SQL Server: the model starts at a node tree and ends at a tree of blocks.
- Text nodes have no children in the model, as in every parsed tree.
- Block values hold inline content by value: `InlineContent.ReadItems` reads it off the heap when a block is complete.
- InlineContent.CopyMark: a copy of a link mark shares its attribute map with the original; no code writes to that map after its creation, so it is part of the mark's value here, and the sharing is not shown.
- BlockText.ConversionKeepsTextExactly: for a fragment that has a character twice, and both something to drop and something to repeat, only the equality of the two amounts is shown to be necessary; such a fragment may keep its ink by coincidence, see `SecondCopyStandsIn`.
- `float64` rounding in the token bucket: tokens and times are real numbers. The instants that one request reads are one instant.
- Interleavings of lookup, decision and cleanup for one key of the limiter: the bucket is used after the store's lock is released, so runs are runs of whole requests.
- BucketStore.Store.Handle: with a configured rate of zero the source computes an infinite wait; the header it then sends is not modelled.
- HTTP binding, logging, view objects, configuration and the checks that need them, except for the refusals that the modelled handlers make.
- How the limiter forms the key of a client from prefix and address: the key is a parameter.
- Password checks, JWT signing and UUIDs: new refresh tokens are fresh non-empty values, access tokens are arbitrary.
- `FetchManualAccessToken` and the SDK: their answers are arbitrary inputs.
- Failing database and cache calls, except for foreign keys of vote records and refreshes that the server fails. In particular the ignored errors of counter bumps and cache deletes.
- The unique indexes on `wechat_accounts`: the invariants are shown from the handlers' own checks, each handler being one step.
- Columns of `wechat_accounts` that no invariant speaks of (profile texts, images, counters, timestamps).
- AccountInvariants.TokenHandedOutIsCurrent: speaks of platform accounts; for manual accounts it is false, see `CredentialEditAndCache` and `StaleManualToken`.
- Restarts of the service that keeps the component token.
- A client that gives up on a refresh call before the server is done with it, and other sessions of the same user (see `LoginElsewhereBreaksAgreement`).
- The login and logout handlers beyond their effect on the slot, and the limit on login attempts.
- ChannelQuery.GetChannelTree: the order of rows that agree in level and sort order, which SQL leaves open; everything that follows from the result is shown for every such order.
- Channel columns that neither query, tree nor table uses.
- Replacing the options of a vote, and creating, editing or deleting votes while submissions run.
- Menu, reply, news, material and settings handlers, storage drivers, the AI provider and the rest of the user interface, which would add only one-step facts.
