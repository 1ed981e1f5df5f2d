# Taskeer sharing and access control, in Dafny

A model of the Taskeer backend (an Express/MySQL task manager), centred on how
lists and categories are shared and who may do what with them:

- the two grant tables `categoria_compartida` and `lista_compartida`, with
  their role, active and accepted flags and the creator row;
- the share key: generating it, joining a list with it, inviting by e-mail,
  changing a member's role, revoking, leaving and unsharing;
- the read side: a list's members, the lists a user sees as shared, and the
  merged membership view with its role precedence;
- creating a list under a shared category, and the category model with its
  permission check;
- notifications and invitations, including accepting and rejecting;
- the audit log of sharing events.

Around that core, the model covers the pure logic of the rest of the
backend:

- task permissions and the task update;
- a task's reminders and the next date of a repeating task;
- the list chat: validation, edit and delete, and unread counts;
- the server-sent-events manager and the frame it writes, read back by a
  client that follows section 9.2.6 of the WHATWG HTML Living Standard;
- statistics: contribution levels, the calendar and the streak;
- notes;
- e-mail templating and the frontend URL configuration.

## How the backend is represented

The database is a value (`Store.State`). Each handler is a function from a
state and a request to a reply (`Store.Reply`): the outcome, either a result
or an HTTP-style error, plus the state afterwards. A handler that fails
returns the state unchanged, which is what the transaction rollback in the
source achieves.

JavaScript behaviour the code relies on is spelled out in `Js`:
truthiness, `||`, `String(x)`, `trim` and `parseInt`, where `None` stands
for `NaN`.

Several things the source takes from outside are parameters of the model:

- "the first row" of a query without ORDER BY is taken to be the row with
  the lowest id;
- new ids are fresh auto-increment values;
- randomness, the clock and e-mail delivery are inputs;
- so is whether a write to a connection fails.

## Model

| member | source | states |
|---|---|---|
| Roles.ToStored | src/controllers/compartir/lista-compartir.controller.js:21-30 | a front-end role name ('lector', 'colaborador', 'admin', 'editor') maps to a role the grant tables store; any other name that is not an Object.prototype member passes through the map unchanged |
| Roles.ToFrontend | src/controllers/compartir/lista-compartir.controller.js:32-41 | a stored role name maps to its front-end name; any other name that is not an Object.prototype member passes through unchanged |
| Roles.StoredRoundTrip | src/controllers/compartir/lista-compartir.controller.js:21-41 | showing a stored role to the front end and reading it back gives the same stored role |
| Roles.FrontendRoundTrip | src/controllers/compartir/lista-compartir.controller.js:21-41 | reading a front-end role in and showing it back gives the same front-end name |
| Roles.AcceptedNames | src/controllers/compartir/lista-compartir.controller.js:318-324 | the names the invite handler accepts after translation are exactly the four front-end names plus 'visor', which passes through the map |
| Roles.ToFrontendInverse | src/controllers/compartir/lista-compartir.controller.js:21-41 | outside 'lector'/'visor' both maps are the identity, so each undoes the other |
| Roles.PrototypeKeyRefused | src/controllers/compartir/lista-compartir.controller.js:318-324 | a name such as 'constructor', which the JavaScript map resolves on Object.prototype, is neither a front-end nor a stored role, and its translation fails the role guard, as the inherited member does in the source |
| SharingUtils.AlphabetIsKeyClass | src/utils/compartir.utils.js:4-17 | the generator's 36-character alphabet is exactly the class [A-Z0-9] the validator accepts |
| SharingUtils.KeyChar | src/utils/compartir.utils.js:8 | any draw picks a character of the key class |
| SharingUtils.GenerateKey | src/utils/compartir.utils.js:4-12 | the key has eight characters, character i is the one picked by draw i, and every generated key passes validarClaveCompartir |
| SharingUtils.ValidKeyMeaning | src/utils/compartir.utils.js:14-17 | validarClaveCompartir accepts a value iff it is a string of exactly eight [A-Z0-9] characters; no falsy or non-string value passes |
| SharingUtils.ValidRoleIsStorable | src/utils/compartir.utils.js:23-26 | every role esRolValido accepts translates to a storable role, never the owner pseudo-role |
| SharingUtils.NormalizeEmail | src/utils/compartir.utils.js:34-37 | a falsy value gives ""; a string gives a lower-case result with no surrounding white space; a truthy non-string throws (None) |
| SharingUtils.NormalizeEmailMeaning | src/utils/compartir.utils.js:34-37 | an address written as white space, a core with no white space at either end, and white space normalises to exactly the lower-cased core; every string has that shape, so this fixes the result for every string |
| SharingUtils.NormalizeEmailIdempotent | src/utils/compartir.utils.js:34-37 | normalising an already normalised address changes nothing |
| SharingUtils.NormalizeEmailIgnoresCase | src/utils/compartir.utils.js:34-37 | addresses differing only in letter case normalise alike |
| SharingUtils.NormalizeEmailIgnoresPadding | src/utils/compartir.utils.js:34-37 | white space before or after an address leaves its normalised form unchanged, the empty address included |
| GrantStore.NewRow | src/models/categoriaCompartida.js:17-38 | the stored row: role `rol` or 'colaborador' when missing/empty, creator and accepted only when asked for, active unless explicitly false |
| GrantStore.Create | src/models/categoriaCompartida.js:137-158 | crear inserts exactly one new row for (resource, user) with those defaults and leaves other rows alone; a second row for the same pair, or an undefined compartidoPor, fails |
| GrantStore.Find | src/models/categoriaCompartida.js:41-54 | obtener finds the row of (resource, user) in any state iff it exists and its user exists |
| GrantStore.ListedUsers | src/models/categoriaCompartida.js:57-75 | the listed users are exactly those with an active row whose user exists |
| GrantStore.ListActive | src/models/categoriaCompartida.js:57-75 | listarPorCategoria / listarPorLista return exactly the active rows of the resource whose user exists, each once, creator rows first and then oldest first |
| GrantStore.ListingKeyOrder | src/models/categoriaCompartida.js:68 | `ORDER BY esCreador DESC, fechaCompartido ASC` means creator rows first, then oldest first |
| GrantStore.UpdateRole | src/models/categoriaCompartida.js:78-90 | actualizarRol succeeds iff a non-creator row exists, and then only that row's role changes; otherwise nothing changes |
| GrantStore.Revoke | src/models/categoriaCompartida.js:93-105 | revocar succeeds iff a non-creator row exists (already inactive rows still match), and only deactivates it |
| GrantStore.Reactivate | src/models/categoriaCompartida.js:108-120 | reactivar succeeds iff the row exists, with no creator guard, making it active and accepted with a fresh shared date |
| GrantStore.RevokeHidesFromListing | src/models/categoriaCompartida.js:57-105 | after a revocation the user is absent from the listing and every other user's active state is unchanged |
| GrantStore.RevokeThenReactivate | src/models/categoriaCompartida.js:93-120 | a revoked row comes back active by reactivation, with its role unchanged |
| GrantStore.CreatorRowIsProtected | src/models/categoriaCompartida.js:78-105 | the creator's row can be neither re-roled nor revoked: both report failure and write nothing |
| GrantStoreAlt.Create | src/models/listaCompartida.js:7-20 | a new row is never a creator row; accepted defaults to false, active to true; a missing role, an undefined compartidoPor or an existing row fails |
| GrantStoreAlt.Find | src/models/listaCompartida.js:25-37 | obtener returns the raw row of (list, user) whatever its state, iff it exists |
| GrantStoreAlt.Annotate | src/models/listaCompartida.js:45-46 | each listed row carries `esCreador` computed as "this user owns the list" |
| GrantStoreAlt.CreatorsFirst | src/models/listaCompartida.js:43-51 | the listing is a permutation of the active rows of the list whose user exists, each user once, and every row with the stored creator flag comes before every row without it |
| GrantStoreAlt.ListActive | src/models/listaCompartida.js:42-59 | a missing list lists nothing; otherwise every active row of the list whose user exists is listed, annotated with list ownership, each user once and as many rows as there are such rows, rows carrying the stored creator flag first (ORDER BY lc.esCreador DESC) |
| GrantStoreAlt.UpdateRole | src/models/listaCompartida.js:64-86 | the list owner is refused without a write; anyone else goes through the guarded role UPDATE |
| GrantStoreAlt.OwnerRoleUnchanged | src/models/listaCompartida.js:64-86 | the list owner's row keeps its role, whether or not the row carries the creator flag |
| Audit.DetailsOrEmpty | src/models/categoriaCompartida.js:333 | the bundled registrar stores falsy details as `{}` and truthy ones as given |
| Audit.DetailsDefault | src/models/auditoriaCompartidos.js:8 | the standalone registrar replaces only undefined details by `{}`; null is stored as null |
| Audit.Append | src/models/auditoriaCompartidos.js:10-21 | a failed INSERT is swallowed: null id, log unchanged; otherwise exactly one entry is appended and its id returned |
| Audit.RegisterShared | src/models/categoriaCompartida.js:321-342 | the bundled registrar appends one entry with the given details or an empty object, or leaves the log alone and returns null on failure |
| Audit.Register | src/models/auditoriaCompartidos.js:8-22 | the standalone registrar appends one entry with details defaulted, or leaves the log alone and returns null on failure |
| Audit.NewestFirst | src/models/auditoriaCompartidos.js:29-35 | the history of an entity is the log's entries about that entity whose user exists (the JOIN on usuario), every one of them and nothing else, newest first: the filtered log reversed |
| Audit.History | src/models/auditoriaCompartidos.js:27-43 | obtenerHistorial returns the newest entries of the entity: all of them when there are at most 100, exactly the 100 newest otherwise; a failed query gives [] |
| Audit.ByEntity | src/models/categoriaCompartida.js:344-359 | obtenerPorEntidad returns at most `limite` (default 50) entries newest first; a failed query is an error |
| Audit.RegisterThenHistory | src/models/auditoriaCompartidos.js:8-43 | what was just registered about an entity is the first entry of its history |
| Audit.FailedRegisterInvisible | src/models/auditoriaCompartidos.js:17-21 | a failed audit write leaves no trace in any later history |
| ListSharing.AcceptedRoleNames | src/controllers/compartir/lista-compartir.controller.js:318-324 | the role guard of invitation and role change lets through exactly the four front-end names and 'visor' |
| ListSharing.KeyRetry | src/controllers/compartir/lista-compartir.controller.js:111-120 | the retry loop settles on the first of ten candidates no list holds; when all ten are taken the eleventh draw is used unchecked |
| ListSharing.OwnerRow | src/controllers/compartir/lista-compartir.controller.js:142-174 | after key generation the owner holds exactly one more (or the same) row: admin, creator, accepted, active; other rows untouched |
| ListSharing.HeldKey | src/controllers/compartir/lista-compartir.controller.js:96-99 | a list's existing key is reused exactly when it is truthy |
| ListSharing.GenerateKey | src/controllers/compartir/lista-compartir.controller.js:52-224 | 400 without a caller, 404 unless the caller owns the list, 500 with rollback when the audit insert fails; on success the held key is reused or a candidate is chosen, the list becomes shareable with that key, the owner row is written and one audit entry added; nothing else changes |
| ListSharing.GenerateKeyIdempotent | src/controllers/compartir/lista-compartir.controller.js:96-140 | generating again for a list that got a key hands back the same key, marked as reused |
| ListSharing.GeneratedKeyFresh | src/controllers/compartir/lista-compartir.controller.js:111-120 | a newly generated key is held by no other list, unless all ten checked candidates were taken |
| ListSharing.KeyHolders | src/controllers/compartir/lista-compartir.controller.js:235-241 | the lists a key finds are exactly those holding it whose owner exists |
| ListSharing.JoinRow | src/controllers/compartir/lista-compartir.controller.js:259-275 | a join reactivates an existing row (accepted, active, fresh date, role kept) or inserts a collaborator row shared by the owner; either way the caller becomes a member and other rows stay |
| ListSharing.JoinByKey | src/controllers/compartir/lista-compartir.controller.js:226-304 | 400 for a malformed key, 404 for an unknown key, 400 when the caller owns the list, 400 when the caller is already an active member; it succeeds exactly when the caller neither owns the list nor holds an active row (a row whose user is missing also blocks it); then the caller's row is reactivated with its role kept, or created as a collaborator row shared by the owner, every other grant row keeps its value, one 'unirse_por_clave' audit entry is appended unless that write fails, and nothing else changes; the reply names 'colaborador'; failures write nothing |
| ListSharing.JoinKeepsRole | src/controllers/compartir/lista-compartir.controller.js:259-265 | rejoining after leaving keeps the role and creator flag the old row had |
| ListSharing.JoinTwiceRefused | src/controllers/compartir/lista-compartir.controller.js:253-257 | joining a second time with the same key is refused with 400: the caller is now an active member |
| ListSharing.JoinCreatesCollaborator | src/controllers/compartir/lista-compartir.controller.js:266-275 | a first join creates an accepted, active collaborator row shared by the owner |
| ListSharing.UserByEmail | src/controllers/compartir/lista-compartir.controller.js:344-352 | the invitee found is a user registered under that e-mail, and one is found whenever such a user exists |
| ListSharing.InviteNotice | src/controllers/compartir/lista-compartir.controller.js:421-435 | the invitation notice goes to the invitee, unread, of kind invitacion_lista, carrying the list, its name, the role as sent and the inviter |
| ListSharing.RoleNotice | src/controllers/compartir/lista-compartir.controller.js:632-646 | the role-change notice goes to the target, unread, of kind cambio_rol_lista, carrying the new role and the previous one in front-end names |
| ListSharing.RevokeNotice | src/controllers/compartir/lista-compartir.controller.js:782-795 | the revocation notice goes to the target, unread, of kind otro, carrying the list id |
| ListSharing.InvitedRow | src/controllers/compartir/lista-compartir.controller.js:394-402 | an invitation writes an active, accepted, non-creator row with the translated role, shared by the caller |
| ListSharing.Invite | src/controllers/compartir/lista-compartir.controller.js:306-489 | 400 for a role outside the guard, 403 unless owner or active admin, 404 when no user has the e-mail, 400 when that user owns the list, 400 when that user holds any row of it; it succeeds exactly when, beyond those, the list and the caller exist and the invitee id is non-zero; then exactly that row is added, the list made shareable, one invitation notification added for the invitee, one 'invitar_usuario' audit entry appended unless that write fails, and nothing else changes; failures write nothing |
| ListSharing.InviteFrame | src/controllers/compartir/lista-compartir.controller.js:394-410 | an invitation changes no grant row other than the invitee's on that list |
| ListSharing.InviteTwiceRefused | src/controllers/compartir/lista-compartir.controller.js:368-378 | sending the same invitation again is refused with 400: the invitee now holds a row |
| ListSharing.RoleWrite | src/controllers/compartir/lista-compartir.controller.js:565-613 | the creator's row is refused (403); an existing row gets the new role; a missing row is materialised as an accepted active row only when the target has active access to the list's category, otherwise 404 |
| ListSharing.ModifyRole | src/controllers/compartir/lista-compartir.controller.js:516-702 | 400 for a bad role, 404 for a missing list, 403 unless owner or active admin; it succeeds exactly when, beyond those, the role write for the target succeeds and both caller and target are existing users; any change of state is exactly the role write, one 'cambio_rol_lista' notification for the target, and a 'modificar_rol' audit entry whose target id is the route text, written unless that write fails or the target has no user row |
| ListSharing.ModifyRoleSparesCreator | src/controllers/compartir/lista-compartir.controller.js:597-600 | a role change aimed at the creator's row fails and writes nothing |
| ListSharing.ModifyRoleMaterialises | src/controllers/compartir/lista-compartir.controller.js:570-592 | a role change for a user without a list row succeeds only through active category access and leaves them a non-creator member with the new role |
| ListSharing.Revoke | src/controllers/compartir/lista-compartir.controller.js:704-840 | 404 for a missing list, 403 unless owner or active admin, 404 when the target has no row on the list or no user record, 403 for the creator's row; it succeeds exactly for an existing target's non-creator row when the audit write does not fail, and then deactivates exactly that row, adds one notification for the target and appends one 'revocar_acceso' entry whose target id is the route text, changing nothing else; failures write nothing |
| ListSharing.Leave | src/controllers/compartir/lista-compartir.controller.js:842-875 | leaving succeeds iff the caller holds a non-creator row (joined with its user); then that row is deactivated, a 'salir' audit entry is appended unless that write fails, and nothing else changes |
| ListSharing.Unshare | src/controllers/compartir/lista-compartir.controller.js:877-932 | unsharing succeeds iff the caller owns the list; then every grant row of the list is deleted, its key and shareable flag are cleared, a 'descompartir' audit entry is appended unless that write fails, and nothing else changes |
| ListSharing.UnshareClosesList | src/controllers/compartir/lista-compartir.controller.js:894-903 | after unsharing nobody holds a row for the list and no key joins it |
| ListSharing.CreatorRowSurvives | src/controllers/compartir/lista-compartir.controller.js:597-855 | the creator's row survives role change, revocation and leaving unchanged |
| ListViews.ToUserEntries | src/controllers/compartir/lista-compartir.controller.js:496-504 | each listed row is reported with its role translated to the front-end name and its creator and accepted flags |
| ListViews.ListUsers | src/controllers/compartir/lista-compartir.controller.js:491-514 | listarUsuariosLista reports exactly the active rows of existing users (every such user has an entry and nothing else is listed), each user once, with front-end role names, creator rows first and, among equals, older rows (by fechaCompartido) first |
| ListViews.CategoryRow | src/controllers/compartir/lista-compartir.controller.js:982 | the category row that counts for a list is the user's active grant on the list's category, if the list has one |
| ListViews.AccessRole | src/controllers/compartir/lista-compartir.controller.js:943-948 | the role a user sees a list under: 'propietario' for the owner, else the active list grant's role, else the active category grant's role, else none |
| ListViews.Entry | src/controllers/compartir/lista-compartir.controller.js:1002-1023 | an entry names its list and flags ownership exactly when the user owns it |
| ListViews.EntriesFor | src/controllers/compartir/lista-compartir.controller.js:983-989 | of the given lists, exactly those the user sees as shared are reported, each with its entry |
| ListViews.SharedLists | src/controllers/compartir/lista-compartir.controller.js:934-1033 | obtenerListasCompartidas reports exactly the lists the user sees as shared (shared lists whose owner's user row exists, owned or reached through an active accepted list or category grant), each list once, each with its entry |
| ListViews.RolePrecedence | src/controllers/compartir/lista-compartir.controller.js:943-977 | a list grant takes precedence over a category grant, both for the role shown and for the reported origin; the owner is always 'propietario' |
| ListViews.EntryUsersMeaning | src/controllers/compartir/lista-compartir.controller.js:1153-1154 | the users of a member listing are exactly the users of its entries |
| ListViews.RowUsersMeaning | src/controllers/compartir/lista-compartir.controller.js:1101-1140 | the users of a set of grant rows are exactly the users of its rows |
| ListViews.AddNew | src/controllers/compartir/lista-compartir.controller.js:1175-1210 | the forEach that skips users already added adds each new user of the rows once, from their own row, and nobody already seen |
| ListViews.UsersOfConcat | src/controllers/compartir/lista-compartir.controller.js:1153-1210 | appending entries unites their users |
| ListViews.DistinctConcat | src/controllers/compartir/lista-compartir.controller.js:1154 | appending two duplicate-free listings with disjoint users stays duplicate-free (the role of `usuariosAgregados`) |
| ListViews.Merge | src/controllers/compartir/lista-compartir.controller.js:1153-1210 | the owner comes first; every user of the owner, the list rows and the category rows appears exactly once; list-origin entries precede category-origin ones; a category entry only for a user with no list row |
| ListViews.MergeUsers | src/controllers/compartir/lista-compartir.controller.js:1153-1210 | owner, list entries and category entries together are duplicate-free and cover the union of their users |
| ListViews.MergeRows | src/controllers/compartir/lista-compartir.controller.js:1175-1210 | every entry after the owner comes from its own row and origin, and list entries precede category entries |
| ListViews.MergeHasListRow | src/controllers/compartir/lista-compartir.controller.js:1175-1191 | every non-owner with a list row is listed from that row with origin 'lista' |
| ListViews.MergeHasCategoryRow | src/controllers/compartir/lista-compartir.controller.js:1194-1210 | every non-owner with a category row and no list row is listed from the category row with origin 'categoria' |
| ListViews.CategoryRows | src/controllers/compartir/lista-compartir.controller.js:1121-1140 | the category rows of a list are exactly the active grants of existing users on its category |
| ListViews.MembersView | src/controllers/compartir/lista-compartir.controller.js:1035-1246 | 404 for a missing list, 403 without access through ownership, list grant or category grant, 500 when the owner's user row is missing; it succeeds exactly with access and an existing owner; managing is allowed iff owner or seen as admin |
| ListViews.MembersViewIsMerge | src/controllers/compartir/lista-compartir.controller.js:1100-1210 | the members reported are the merge of the owner, the active list rows and the active category rows |
| ListViews.MembersViewListPrecedence | src/controllers/compartir/lista-compartir.controller.js:1175-1191 | a user with an active list grant is listed once with origin 'lista' and that grant's role |
| ListViews.MembersViewCategoryPrecedence | src/controllers/compartir/lista-compartir.controller.js:1194-1210 | a user reaching the list only through its category is listed with origin 'categoria' and the category grant's role |
| ListCreate.UsedListIds | src/controllers/lista.controller.js:59-74 | the auto-increment id of a new list is taken by no existing list and by no leftover grant row |
| ListCreate.Inheritors | src/controllers/lista.controller.js:89-94 | the users who inherit the new list are exactly the active members of its category other than the creator |
| ListCreate.Propagate | src/controllers/lista.controller.js:78-107 | the new list starts with the creator's admin creator row and one accepted active copy of each inheritor's category role, shared by the creator; no other row is added or changed |
| ListCreate.CreateList | src/controllers/lista.controller.js:7-138 | 400 for a falsy or blank name, 500 for a non-string one, nothing written on failure; it succeeds exactly for a string name that is not blank once trimmed, adding one new list with the trimmed name, shareable with a key exactly when its category exists and is shareable, and no grant rows when it is not; nothing but the lists and list grants changes |
| ListCreate.CreateUnderSharedCategory | src/controllers/lista.controller.js:78-107 | under a shareable category the new list's holders are exactly the creator and the category's other active members, with their category roles; earlier rows are untouched |
| ListCreate.CreatedKeyIsValid | src/controllers/lista.controller.js:36-55 | the key of a shareable new list is key-shaped |
| ListCreate.PropagateCount | src/controllers/lista.controller.js:78-107 | N inheriting category members give the new list N + 1 grant rows |
| ListCreate.CreateListRowCount | src/controllers/lista.controller.js:78-108 | a created list holds N + 1 grant rows under a shareable category with N inheritors, and none otherwise |
| Categories.UsedCategoryIds | src/models/categoria.js:18-20 | the auto-increment id of a new category is taken neither by a category nor by a grant row |
| Categories.Create | src/models/categoria.js:15-40 | crear stores the category under a fresh id and an admin, creator, accepted, active row for its owner; lists are untouched; the answer reports it shareable and private |
| Categories.MayAct | src/models/categoria.js:214-240 | verificarPermiso grants an action to the category's owner and to nobody else (the role check it calls is not available to it) |
| Categories.RoleOf | src/models/categoria.js:244-274 | obtenerRol: none for a missing category; 'admin' and owner for the owner; for anyone else the role of their active row (if non-empty) and its creator flag |
| Categories.Find | src/models/categoria.js:67-93 | obtenerPorId finds the category exactly when the user owns it or holds an active row on it |
| Categories.Delete | src/models/categoria.js:126-147 | eliminar: false for a missing category, an error for a non-owner, and for the owner the category is removed with nothing else changed |
| Categories.Items | src/models/categoria.js:186-205 | each list of the category is reported with its id, name, shareable flag, key and owner |
| Categories.ListsIn | src/models/categoria.js:165-170 | the lists of a category are exactly those filed under it |
| Categories.WithListsOf | src/models/categoria.js:150-210 | obtenerConListas: the category, with every list filed under it, exactly when the user may see it; the header carries the category's own name, compartible and key; the role is the active row's role, else 'admin' |
| Categories.HeaderAsWritten | src/models/categoria.js:152-186 | as written, the header compartible and claveCompartir are those of the list on the first row, or null when the category has no list |
| Categories.HeaderAsWrittenShowsTheList | src/models/categoria.js:152-186 | for a shareable category with a key that holds one private keyless list, the header as written reads unshareable and keyless, while the corrected header reads the category's own values |
| Categories.Project | src/controllers/categoria.controller.js:6-57 | one listed category: the owner sees role 'admin', its key and not shared; others see it shared without a key, with their member role; the list count is the number of lists filed under it |
| Categories.Projections | src/controllers/categoria.controller.js:6-57 | every category id is projected for the caller, in order |
| Categories.ListedIds | src/controllers/categoria.controller.js:10-30 | obtenerCategorias groups exactly the categories the user owns or holds an active, accepted row on |
| Categories.AllIds | src/models/categoria.js:43-64 | obtenerTodas lists exactly the categories the user owns or holds an active row on, accepted or not |
| Categories.ListedWithinAll | src/models/categoria.js:43-64 | every category the controller lists, obtenerTodas lists too; they differ exactly on categories held through an active row that is not yet accepted |
| Categories.UserCategories | src/controllers/categoria.controller.js:6-57 | obtenerCategorias answers exactly the listed categories, each once, each projected for the caller |
| Categories.CreateCategory | src/controllers/categoria.controller.js:87-118 | 400 for a falsy name, 500 for a non-string one; it succeeds exactly for a truthy string name, and then exactly one category is added under a fresh id, owned by the caller and carrying the trimmed name, with the caller's admin creator row, and nothing else changes |
| Categories.UpdateCategory | src/controllers/categoria.controller.js:120-170 | 400 for a falsy name, 403 unless the caller owns the category; success iff the trimmed name is non-empty, and then only the name changes; failures write nothing |
| Categories.DeleteCategory | src/controllers/categoria.controller.js:174-200 | 404 for a missing category, 500 for a non-owner; success iff the caller owns it, after which it cannot be found and nothing but the category is gone; failures write nothing |
| Categories.CreatedIsOwned | src/models/categoria.js:15-274 | a new category belongs to its creator in every view: may act, role 'admin', listed, not shared |
| Categories.OwnerIsAdminEverywhere | src/models/categoria.js:244-274 | the owner reads role 'admin' both in obtenerRol and in the category listing |
| Categories.GranteeRoleAgrees | src/models/categoria.js:214-274 | an accepted grantee reads the same role in obtenerRol and the listing, yet may not act and cannot rename the category |
| Notifications.Insert | src/controllers/compartir/notificacion.controller.js:20-32 | the INSERT adds exactly one notification under a fresh id, unread, with `datos or {}` as its data, and changes nothing but the notification table |
| Notifications.Create | src/controllers/compartir/notificacion.controller.js:7-32 | crearNotificacion throws for a falsy user, kind, title or message; otherwise exactly one unread notification for that user is added under a fresh id, with the given data or an empty object, and nothing else changes |
| Notifications.PushPayload | src/controllers/compartir/notificacion.controller.js:36-48 | the pushed object carries the id twice (`id` and `idNotificacion`), the user, event 'nueva_notificacion', `leida` false and the stored data |
| Notifications.CreateThenPush | src/controllers/compartir/notificacion.controller.js:7-71 | a created notification is stored unread for its user, and the pushed payload's two id fields agree |
| Notifications.MarkRead | src/controllers/compartir/notificacion.controller.js:130-194 | 401 without a caller, 400 for a missing or 'undefined' id; success iff the parsed id names one of the caller's notifications, which alone becomes read; otherwise 404 |
| Notifications.MarkAllRead | src/controllers/compartir/notificacion.controller.js:196-219 | fails iff there is no caller; every notification keeps its content, and is read afterwards iff it was read or belongs to the caller |
| Notifications.MarkAllReadClears | src/controllers/compartir/notificacion.controller.js:196-219 | afterwards the caller has nothing unread, and every other user's unread set is unchanged |
| Notifications.Upsert | src/controllers/compartir/notificacion.controller.js:261-267 | the INSERT … ON DUPLICATE KEY UPDATE makes the caller a member: an existing row only becomes accepted and active, keeping its role; otherwise a new non-creator row is inserted; other rows stay |
| Notifications.Sharer | src/controllers/compartir/notificacion.controller.js:266 | the inviter id read from the notification data is a sharer exactly when it is a non-zero number |
| Notifications.AcceptWith | src/controllers/compartir/notificacion.controller.js:221-290 | 401 without a caller, 404 unless the notification is the caller's list invitation; success only for an existing list named by the invitation with a string role, and then exactly the grant upsert plus the notification marked read; failures roll back |
| Notifications.AcceptAsWritten | src/controllers/compartir/notificacion.controller.js:261-267 | aceptarInvitacion as written stores the invited role as the invitation carries it; failures roll back |
| Notifications.Accept | src/controllers/compartir/notificacion.controller.js:221-290 | on success the caller is a member of the list and the invitation is read; failures roll back |
| Notifications.AcceptStoresRole | src/controllers/compartir/notificacion.controller.js:261-267 | an existing row keeps its role; a new row gets a role of the stored vocabulary when the invitation carries a front-end name |
| Notifications.AcceptIdempotent | src/controllers/compartir/notificacion.controller.js:221-290 | accepting the same invitation again changes nothing further |
| Notifications.AcceptAsWrittenStoresFrontendName | src/controllers/compartir/notificacion.controller.js:266 | an invitation with role 'lector' makes the code as written store 'lector', which is not a stored role, while the corrected path stores 'visor' |
| Notifications.Reject | src/controllers/compartir/notificacion.controller.js:295-316 | fails iff there is no caller; no grant changes; only the caller's own notification with that id becomes read |
| Notifications.NormalizeData | src/models/notificaciones.js:9 | the constructor's `datos` is null when falsy, parsed when a string, and kept otherwise |
| Notifications.FromDatabase | src/models/notificaciones.js:12-22 | fromDatabase copies the fields, sets `leida` true exactly for 1 or true, and normalises the JSON column |
| Notifications.ToJson | src/models/notificaciones.js:24-34 | toJSON has exactly the seven fields of the model object, with their values |
| Notifications.RowToJson | src/models/notificaciones.js:9-34 | a serialised row always carries a boolean `leida`, and normalising its already normalised data changes nothing |
| Invitations.UnionFirstRole | src/controllers/compartir/invitacion.controller.js:19-26 | the first row of the permission UNION is the caller's grant row in any state, else 'propietario' when the caller owns the list, else none |
| Invitations.NoticeData | src/controllers/compartir/invitacion.controller.js:76-82 | the invitation data names the list, the role as sent and the inviter's id |
| Invitations.InviteWith | src/controllers/compartir/invitacion.controller.js:8-103 | 403 unless permitted, 404 for an unknown address, and any row of the invitee blocks; on success only one notification is added for the invitee, with the title, message and data the source builds, and no grant row or list changes |
| Invitations.MayInviteAsWritten | src/controllers/compartir/invitacion.controller.js:19-31 | as written, the caller may invite when their grant row, in whatever state, has role 'propietario' or 'admin'; only a caller with no row is admitted by owning the list |
| Invitations.MayInvite | src/controllers/compartir/lista-compartir.controller.js:327-340 | the intended check: the owner may always invite; anyone else exactly when their row for the list is active with role 'admin' |
| Invitations.InviteAsWritten | src/controllers/compartir/invitacion.controller.js:19-31 | the notification-only invite as written succeeds only when the first UNION row reads 'propietario' or 'admin' |
| Invitations.Invite | src/controllers/compartir/invitacion.controller.js:8-103 | with the intended check, success needs the owner or an active admin, and anyone else gets 403 with nothing written |
| Invitations.RevokedAdminMayInviteAsWritten | src/controllers/compartir/invitacion.controller.js:19-28 | a revoked admin (inactive 'admin' row) passes the written check and sends an invitation; the intended check refuses them |
| Invitations.InvitePermissionDifference | src/controllers/compartir/invitacion.controller.js:19-28 | the two checks differ only for an inactive row or a stored 'propietario' role (written lets through), or an owner whose own row is not 'admin' (written refuses) |
| Invitations.InviteThenAccept | src/controllers/compartir/invitacion.controller.js:70-83 | an invitation sent this way can be accepted by the invitee, which makes them a member with the translated role |
| Invitations.Create | src/models/invitacion.js:8-24 | crear adds exactly one invitation under a fresh id, active and not accepted |
| Invitations.EntityName | src/models/invitacion.js:29-38 | the invited-to name is the category's for 'categoria' and the list's for 'lista', none otherwise |
| Invitations.WithToken | src/models/invitacion.js:26-42 | the invitations a token finds are exactly the active ones with that token whose inviter exists |
| Invitations.ByToken | src/models/invitacion.js:26-50 | obtenerPorToken returns null iff no such invitation exists, else one of them with its entity and inviter names |
| Invitations.PendingIds | src/models/invitacion.js:52-72 | pending for an address means sent to it, active, not accepted, not expired, with an existing inviter |
| Invitations.PairsOf | src/models/invitacion.js:52-72 | each pending id is reported with its own invitation |
| Invitations.NewestKeyOrder | src/models/invitacion.js:69 | `ORDER BY fechaInvitacion DESC` puts newer invitations first |
| Invitations.SortKeepsPairs | src/models/invitacion.js:52-72 | sorting the pending rows keeps them all pending |
| Invitations.PendingFor | src/models/invitacion.js:52-80 | obtenerPendientesPorEmail returns every pending invitation of the address and nothing else, each once, newest first |
| Invitations.MarkAccepted | src/models/invitacion.js:82-93 | marcarComoAceptada reports whether the token matched; every invitation with it becomes accepted and inactive, every other one is untouched |
| Invitations.AcceptedTokenIsRetired | src/models/invitacion.js:26-93 | once accepted, a token is found no more and is no longer pending; lookups of other tokens are unaffected |
| Invitations.CreatedIsFound | src/models/invitacion.js:8-72 | a freshly created invitation with a new token is found by that token, and is pending while unexpired |
| Tasks.ListOf | src/models/tarea.js:50 | a task belongs to a list exactly when its idLista is a non-zero number (`if (tarea.idLista)`) |
| Tasks.ListOwner | src/models/tarea.js:29-35 | the LEFT JOIN yields the owner of the task's list when that list exists, and nothing otherwise |
| Tasks.SharedRole | src/models/tarea.js:52-56 | the caller's shared role on the task's list comes only from an active, accepted grant row |
| Tasks.MayOnTask | src/models/tarea.js:176-249 | verificarPermisos: false for a missing task; true for the task owner and the list owner; otherwise exactly what the role matrix allows for the caller's active, accepted list role |
| Tasks.PermissionsNested | src/models/tarea.js:176-249 | whoever may delete may edit, and whoever may edit may view |
| Tasks.ViewerAndCollaborator | src/models/tarea.js:176-249 | a 'visor' or 'colaborador' may view; only the 'colaborador' may edit; neither may delete |
| Tasks.UnknownActionOwnersOnly | src/models/tarea.js:176-249 | an action outside the matrix is allowed to the two owners only |
| Tasks.PermissionIgnoresCategoryAndInactiveRows | src/models/tarea.js:176-249 | category grants and inactive or unaccepted list rows never change a task permission |
| Tasks.NoListOwnerOnly | src/models/tarea.js:176-249 | a task outside every list is open to its owner alone |
| Tasks.ChangeState | src/models/tarea.js:537-619 | cambiarEstado writes only the state of that task, and only when allowed |
| Tasks.ChangeStateIsEdit | src/models/tarea.js:537-619 | cambiarEstado lets through exactly the users the 'editar' permission lets through |
| Tasks.ChangeStateRequest | src/controllers/tarea.controller.js:538-589 | 400 for a missing state, 400 for one outside C/P/N; a valid state succeeds iff the caller may edit, and the task then carries it; failures write nothing |
| Tasks.DeleteTask | src/models/tarea.js:516-534 | eliminar deletes the task iff the caller holds the 'eliminar' permission, and changes nothing otherwise |
| Tasks.CollaboratorCannotDelete | src/models/tarea.js:176-249 | a collaborator's delete is refused and the task stays |
| Tasks.CheckEnums | src/controllers/tarea.controller.js:196-210 | a present priority must be A, N or B and is checked first; a present state must be C, P or N |
| Tasks.Assignments | src/models/tarea.js:422-513 | the SET list holds exactly the updatable fields that are not undefined, with their values |
| Tasks.Update | src/models/tarea.js:422-513 | actualizar answers null without 'editar'; errors when no field is sent; otherwise exactly the sent updatable fields change, owner and assignee stay, and every other field is kept |
| Tasks.UpdateIdempotent | src/models/tarea.js:422-513 | sending the same update twice leaves the table as the first one did |
| Tasks.TrimOptional | src/controllers/tarea.controller.js:469-470 | `v?.trim()` trims a string, keeps null/undefined as undefined, and throws for anything else |
| Tasks.Forwarded | src/controllers/tarea.controller.js:466-483 | the handler forwards exactly its twelve destructured fields, name and description trimmed, and throws when either is present but not a string; the other fields are forwarded as received, recordatorio included (its rewrite is left out) |
| Tasks.HasChanges | src/controllers/tarea.controller.js:390-402 | hayCambios: recordatorio, repetir and idLista count when defined, the other destructured fields when truthy; miDia is not among them |
| Tasks.UpdateRequest | src/controllers/tarea.controller.js:370-505 | 400 when nothing counts as a change, then the enum checks; 404 when the caller may not edit the task; it succeeds exactly when something changes, the enums pass, name and description are strings or absent, and the caller may edit, answering the stored task; failures write nothing |
| Tasks.ChangesReachTheModel | src/controllers/tarea.controller.js:390-483 | whatever passes `hayCambios` hands the model at least one field to write |
| Tasks.UpdateRequestIgnoresMiDia | src/controllers/tarea.controller.js:390-409 | a body that only sets miDia is refused as "no change" |
| Tasks.Construct | src/models/tarea.js:4-20 | the constructor copies id and name, defaults priority to N and state to P, coerces miDia and repetir to booleans, and turns falsy description and list into null |
| Tasks.ConstructIdempotent | src/models/tarea.js:4-20 | building a task from an already built one changes nothing |
| Tasks.VisibleTo | src/controllers/tarea.controller.js:318-325 | the filter keeps exactly the tasks that are unassigned or assigned to the caller, in their original order: it is the order-preserving filter of the sequence by that condition |
| Tasks.VisibleToIdempotent | src/controllers/tarea.controller.js:680-685 | filtering twice is filtering once |
| Tasks.VisibleToKeepsAll | src/controllers/tarea.controller.js:318-325 | a list in which every task is shown to the caller passes unchanged |
| Tasks.AssignerName | src/models/tarea.js:95-100 | the assigner's name, or 'Alguien' when it is missing or empty |
| Tasks.AssignNotice | src/models/tarea.js:103-121 | the assignee gets an unread 'tarea_asignada' notification whose tareaId is the task id as the text the route carries, and whose asignadoPorId is the assigner |
| Tasks.Assign | src/models/tarea.js:22-148 | a missing task, then an assigner who is neither list owner nor active admin, are refused; success iff additionally the assignee can reach the list; then only the assignee changes and the notice is written |
| Tasks.AssignNeedsListAuthority | src/models/tarea.js:44-69 | a task outside every list, or an assigner without list authority, is refused even for the task's own owner |
| Tasks.AssignAuthority | src/models/tarea.js:22-249 | whoever may assign may also delete the task, and an assignee with a stored role may then view it |
| Tasks.Unassign | src/models/tarea.js:150-172 | desasignarUsuario succeeds iff the caller may edit, and then only clears the assignee |
| Tasks.AssignThenUnassign | src/models/tarea.js:22-172 | whoever assigned a task may take the assignment back, restoring an unassigned task |
| Reminders.Existing | src/controllers/tarea.controller.js:989-1003 | the add handler starts from the stored array, and from an empty list when the column is empty, unparsable or not an array |
| Reminders.Add | src/controllers/tarea.controller.js:950-1045 | a missing task is 404, another user's task 403, an invalid date 400 and nothing else fails; on success the reminders are the old ones plus exactly one new unsent reminder of kind `tipo` or 'personalizado', sorted by date |
| Reminders.AddKeepsReminders | src/controllers/tarea.controller.js:1005-1017 | adding a reminder loses none of the existing ones, contains the new one, and leaves the array in date order |
| Reminders.StoredAfter | src/controllers/tarea.controller.js:1101-1105 | an emptied reminder array is written back as NULL, any other as the array |
| Reminders.RemoveAt | src/controllers/tarea.controller.js:1099 | `splice(i, 1)` removes exactly the element at i and shifts the later ones down by one |
| Reminders.RemoveAsWritten | src/controllers/tarea.controller.js:1047-1115 | eliminarRecordatorio as the code stands: 404 for a missing task, 403 for another user's task, and success only on a readable column |
| Reminders.RemoveAsWrittenTakesNaNAsZero | src/controllers/tarea.controller.js:1092-1099 | a non-numeric index passes the range guard and deletes the first reminder |
| Reminders.Remove | src/controllers/tarea.controller.js:1047-1115 | 404, 403, 400 for an unreadable column, 400 for an index that is not a number or out of range; success exactly for the owner with an in-range index, removing that one element and writing NULL when none remain |
| Reminders.RemoveAgreesOnNumbers | src/controllers/tarea.controller.js:1091-1096 | on every numeric index the corrected removal behaves exactly as the code as written |
| Reminders.AddThenRemove | src/controllers/tarea.controller.js:950-1115 | removing the just-added reminder at its sorted index succeeds and restores the previous reminders as a multiset |
| Reminders.RemoveRestores | src/controllers/tarea.controller.js:1091-1099 | removing, by its printed index, an element added to a list restores the list before the addition, up to order |
| Reminders.RemovedMultiset | src/controllers/tarea.controller.js:1099 | splice(i, 1) removes precisely one copy of the i-th element and nothing else |
| Reminders.Weekday | src/controllers/tarea.controller.js:1197 | `getDay()` always names one of the seven days of the week |
| Reminders.NextWorkday | src/controllers/tarea.controller.js:1194-1198 | the 'laborales' step lands on the first weekday strictly after the date, at most three days on, skipping only weekend days |
| Reminders.NextWorkdayLoop | src/controllers/tarea.controller.js:1195-1197 | the do-while loop stepping one day until the day is neither Sunday nor Saturday ends on that same first weekday |
| Reminders.NextDate | src/controllers/tarea.controller.js:1187-1230 | diario adds one day, semanal seven, laborales goes to the next weekday, an unknown kind keeps the date; personalizado adds `cada` days in 'dias', 7·`cada` days in 'semanas', and keeps the date without a configuration or with an unknown unit; only month and year steps (mensual, personalizado in meses or años) fall outside the day model |
| Reminders.CustomStepsCompose | src/controllers/tarea.controller.js:1205-1224 | a custom repetition of n weeks is one of 7n days, and two custom day steps add up to one |
| Reminders.WeeklyIsSevenDays | src/controllers/tarea.controller.js:1199-1217 | a weekly repetition equals a custom repetition of one week and of seven days |
| Chat.Validate | src/socket/services/chat.service.js:254-270 | a message is accepted exactly when the content is a string whose trimmed form is non-empty and has a `length` of at most 5000 UTF-16 code units, and what is stored is the trimmed text |
| Chat.ValidateIdempotent | src/socket/services/chat.service.js:254-270 | validating an accepted message again accepts it unchanged |
| Chat.Create | src/socket/services/chat.service.js:275-297 | validation comes before the access check; a message is created exactly when it validates and the user may access the list, under a fresh id, unedited and not deleted |
| Chat.Edit | src/models/mensaje.js:75-93 | only the author may edit, and only while the message is not deleted; the edit replaces the content and marks it edited and changes no other message |
| Chat.Delete | src/models/mensaje.js:98-116 | only the author may delete; deletion is a soft delete that marks the message and keeps it |
| Chat.DeleteIdempotentAndFinal | src/models/mensaje.js:75-116 | deleting twice is deleting once, and a deleted message can no longer be edited |
| Chat.OthersCannotTouch | src/models/mensaje.js:75-116 | anyone other than the author gets the not-found error for both edit and delete |
| Chat.MarkRead | src/models/mensaje.js:121-134 | marking as read records the (message, reader) receipt and touches no other receipt |
| Chat.MarkReadIdempotent | src/models/mensaje.js:121-127 | the ON DUPLICATE KEY upsert makes reading twice the same as reading once |
| Chat.Unread | src/models/mensaje.js:163-172 | a message is unread for a user exactly when it is in the list, not deleted, written by someone else and has no receipt from that user |
| Chat.UnreadCounts | src/models/mensaje.js:155-189 | the per-list count is reported exactly for the existing lists where the user holds an active, accepted row and something is unread, and equals the number of unread messages |
| Chat.ReadingClearsUnread | src/models/mensaje.js:121-172 | reading a message removes it from the reader's unread set, changes no one else's, and a user's own messages are never unread to them |
| Chat.PostingCounts | src/socket/services/chat.service.js:275-297 | a new message raises every other reader's unread count by one and leaves the author's own count unchanged |
| Chat.Preview | src/socket/handlers/chat.handler.js:233-235 | the notification text is the content itself when its `length` is at most 100 code units; otherwise it is the longest prefix that fits in 100 code units, followed by "..." |
| Chat.PreviewOfBmpText | src/socket/handlers/chat.handler.js:233-235 | for text without characters outside the Basic Multilingual Plane the preview is the first 100 characters and "..." |
| Text.Utf16Length | src/socket/services/chat.service.js:254-270 | the JavaScript `length` of a string counts one code unit per character and two for a character outside the Basic Multilingual Plane, so it lies between the number of characters and twice that |
| Text.Utf16Prefix | src/socket/handlers/chat.handler.js:233-235 | `substring(0, n)` keeps a prefix that fits in n code units, and the longest one: one more character would not fit |
| Chat.OfflineRecipients | src/socket/handlers/chat.handler.js:185-202 | the users to notify are exactly the active, accepted members of the list other than the sender and those online |
| Chat.DeliveredMembers | src/socket/handlers/chat.handler.js:231-259 | the notifications that are written are exactly those of recipients whose write did not fail |
| Chat.ChatNotice | src/socket/handlers/chat.handler.js:238-252 | each notification goes to its recipient, has kind 'mensaje_chat', the list title and the preview, and starts unread |
| Chat.NotifyOffline | src/socket/handlers/chat.handler.js:231-259 | the loop writes one notification per recipient in order and a failing one is skipped without stopping the rest |
| Chat.Send | src/socket/handlers/chat.handler.js:138-284 | sending succeeds exactly when the message can be created; then every offline member whose notification did not fail is notified, and nobody else is |
| Sse.AddClient | src/utils/sseManager.js:17-24 | registering a response creates the user's set on first use and adds the response to it, leaving every other user's connections as they were |
| Sse.AddClientIdempotent | src/utils/sseManager.js:17-24 | registering the same response twice is the same as registering it once, because connections form a set |
| Sse.RemoveClient | src/utils/sseManager.js:29-40 | unregistering drops exactly that response, deletes the user's entry once no response remains, and touches no other user |
| Sse.ConnectedIffKey | src/utils/sseManager.js:255-257 | as long as empty sets are always deleted, a user is connected exactly when the user has an entry, and registering a response connects its user |
| Sse.AddThenRemove | src/utils/sseManager.js:17-40 | registering a new response and then unregistering it restores the registry exactly |
| Sse.TotalAtLeastUsers | src/utils/sseManager.js:239-250 | since no user keeps an empty set, there are at least as many connections as users |
| Sse.GetStats | src/utils/sseManager.js:239-250 | the stats list exactly the users with an entry, and totalUsers is how many there are |
| Sse.AddClientCounts | src/utils/sseManager.js:17-24 | a new response adds one connection, and one user exactly when its user was not registered |
| Sse.RemoveClientCounts | src/utils/sseManager.js:29-40 | unregistering a registered response takes one connection off the total |
| Sse.FormatSSE | src/utils/sseManager.js:138-207 | a non-object, or an object whose only field is `event`, gives no frame; otherwise the frame carries the id (id, idNotificacion or the clock), the event name (default nueva_notificacion) and the payload without `event`, and is never sent with an empty or `{}` payload |
| Sse.PayloadIdentified | src/utils/sseManager.js:153-172 | the payload never repeats `event` and always has a truthy id or idNotificacion |
| Sse.FrameRoundTrip | src/utils/sseManager.js:191 | a client that reads a frame receives exactly one event, with the frame's event name, payload and id |
| Sse.FormatSSEDelivers | src/utils/sseManager.js:138-207 | every non-empty frame that formatSSE produces reaches the client as exactly one event carrying its name, its id and the encoded payload |
| Sse.PruneStep | src/utils/sseManager.js:74-75 | removing the dead responses one after another yields the registry without all of them |
| Sse.SendToUser | src/utils/sseManager.js:45-89 | the send succeeds exactly when the user is connected, the frame is non-empty and some response accepted the write; the responses whose write failed are removed and nothing else changes |
| Sse.ReachCount | src/utils/sseManager.js:94-104 | the number of users reached is never more than the number of ids given |
| Sse.SendToUsers | src/utils/sseManager.js:94-104 | the total counts the listed users whose send succeeded, and is 0 when the frame is empty |
| Stats.Level | src/controllers/estadisticas.controller.js:423-429 | the contribution level is between 0 and 4, is 0 exactly for no tasks, and is 4 from seven tasks on |
| Stats.LevelMonotone | src/controllers/estadisticas.controller.js:423-429 | more tasks never give a lower level, and one more task raises it by at most one |
| Stats.PeriodDays | src/controllers/estadisticas.controller.js:98-111 | the period is 7, 28 or 180 days: 7 for diaria and 180 for mensual |
| Stats.UnknownPeriodIsWeekly | src/controllers/estadisticas.controller.js:103-111 | any unknown period gets the same 28 days as semanal |
| Stats.ByState | src/controllers/estadisticas.controller.js:26-34 | the counts per state always contain P, N and C, and any other key comes from a grouped row |
| Stats.ByStateCounts | src/controllers/estadisticas.controller.js:26-34 | a state without a row counts 0, and a state with rows gets the count of its last row |
| Stats.CalendarLength | src/controllers/estadisticas.controller.js:190 | a NaN or zero parse of the parameter gives 365 days, any other number is taken as the length, and the length is never 0 |
| Stats.Calendar | src/controllers/estadisticas.controller.js:207-226 | the calendar has one entry per requested day, and none for a negative length |
| Stats.CalendarShape | src/controllers/estadisticas.controller.js:207-226 | the entries are consecutive days, oldest first, ending today; each carries that day's count (0 when absent) and the level of that count |
| Stats.CalendarCountsDay | src/controllers/estadisticas.controller.js:207-226 | every day with a grouped row that falls inside the window appears with that row's count |
| Stats.CalendarDefault | src/controllers/estadisticas.controller.js:190 | without a numeric parameter the calendar covers 365 days |
| Stats.StreakAsWritten | src/controllers/estadisticas.controller.js:362-421 | calcularRacha as written reports 0 <= rachaActual <= rachaMaxima <= the number of distinct days, (0, 0) for no days, and a current streak of 0 when the newest day is before yesterday |
| Stats.StreakAsWrittenBounds | src/controllers/estadisticas.controller.js:362-421 | as written, 0 <= rachaActual <= rachaMaxima <= the number of days; no days give (0, 0) and a newest day older than yesterday gives rachaActual 0 |
| Stats.StreakAsWrittenCurrentAtMostOne | src/controllers/estadisticas.controller.js:384-399 | as written, on distinct days rachaActual is never more than 1, because it is fixed at the first matching day |
| Stats.StreakAsWrittenExamples | src/controllers/estadisticas.controller.js:384-411 | today and yesterday give (1, 2) instead of (2, 2), and one day a week ago gives (0, 0) instead of (0, 1) |
| Stats.LongestRun | src/controllers/estadisticas.controller.js:384-399 | the longest run of consecutive days lies between the final run and the number of days |
| Stats.IntendedStreak | src/controllers/estadisticas.controller.js:374-411 | the intended streaks: 0 <= current <= longest <= the number of days, at least 1 for any day, and (0, 0) for none |
| Stats.StreakExamples | src/controllers/estadisticas.controller.js:384-411 | as intended, today and yesterday give (2, 2) and one day a week ago gives (0, 1) |
| Stats.TailRunMeaning | src/controllers/estadisticas.controller.js:384-399 | the final run is consecutive and cannot be extended one day further back |
| Stats.LongestRunMeaning | src/controllers/estadisticas.controller.js:384-399 | no consecutive stretch of the days is longer than the longest run, and a stretch that long exists |
| Stats.StreakLoop | src/controllers/estadisticas.controller.js:378-411 | the corrected single pass over the days, newest first, computes the intended current and longest streak |
| Notes.Create | src/models/notas.js:16-29 | creating adds exactly one note under a new id, owned by the caller; a truthy title, content or colour is kept, a falsy title becomes 'Sin título', a falsy content '' and a falsy colour '#BAC0CE'; pin flag and position take the column defaults and the update time is now |
| Notes.CreateDefaults | src/models/notas.js:22-27 | a note created from an empty form has title 'Sin título', empty content and colour '#BAC0CE' |
| Notes.Update | src/models/notas.js:32-67 | an update reports true exactly when at least one field was sent and the note is the caller's; then only that note is patched, and otherwise nothing changes |
| Notes.UpdateFields | src/models/notas.js:36-55 | a patch writes exactly the fields it sends, keeps the owner, and sending it again changes nothing |
| Notes.Delete | src/models/notas.js:70-74 | a delete reports true exactly when the note is the caller's, and then removes only that note |
| Notes.WritesAreScoped | src/models/notas.js:59-74 | a user's update or delete never changes another user's note |
| Notes.Duplicate | src/models/notas.js:77-99 | duplicating the caller's note adds one new note of the caller with the title followed by " (copia)" and the same content and colour; a note the caller does not own gives null |
| Notes.DuplicateAddsOne | src/models/notas.js:77-99 | duplicating keeps the original and adds exactly one note |
| Notes.SetPosition | src/models/notas.js:104-109 | one position update never adds or removes a note |
| Notes.Reorder | src/models/notas.js:102-113 | reordering never adds or removes a note |
| Notes.ReorderPositions | src/models/notas.js:102-113 | after reordering, each of the caller's notes listed at index i, and nowhere later, has position i; other notes are unchanged, and no field other than the position changes |
| Notes.Listing | src/models/notas.js:5-13 | the listing contains exactly the caller's notes, each once, sorted pinned first, then by position, then most recently updated first |
| Notes.ListingOrder | src/models/notas.js:5-13 | in the listing no unpinned note precedes a pinned one, and among notes pinned alike positions never decrease |
| Email.Placeholder | src/services/email.service.js:24 | a placeholder is the key wrapped in double braces |
| Email.ReplacePlaceholders | src/services/email.service.js:20-29 | reemplazarPlaceholders takes the keys in order and replaces every occurrence of each key's placeholder by the value's text; no data, or a template without `{`, comes back unchanged |
| Email.ReplaceWithoutKeys | src/services/email.service.js:20-29 | a template in which no placeholder of the given keys occurs comes back unchanged, braces or not |
| Email.ReplaceSkip | src/services/email.service.js:24-25 | text before the first placeholder occurrence is copied unchanged |
| Email.ReplaceNext | src/services/email.service.js:24-25 | the first occurrence is replaced, and the replacement goes on after it |
| Email.NoPlaceholderIn | src/services/email.service.js:24 | no placeholder starts inside text without a `{` |
| Email.ReplaceWithoutBraces | src/services/email.service.js:20-29 | a template without braces comes back unchanged whatever the data |
| Email.FillFirst | src/services/email.service.js:24-25 | a placeholder after brace-free text is filled with the value |
| Email.OneKey | src/services/email.service.js:23-26 | with one key, filling is replacing every occurrence of its placeholder |
| Email.FillEveryOccurrence | src/services/email.service.js:20-29 | the `g` flag fills every occurrence of a placeholder, not just the first |
| Email.Destination | src/services/email.service.js:32-46 | in test mode (RESEND_TEST_MODE 'true' and a test address set) every message goes to the test address, otherwise to the given one |
| Email.DestinationIdempotent | src/services/email.service.js:32-46 | redirecting an already redirected address changes nothing, and the test address itself is never redirected |
| Urls.OrDefault | src/utils/urlHelper.js:5-12 | an unset or empty variable gives the fallback, any other value is kept |
| Urls.FrontendUrl | src/utils/urlHelper.js:4-14 | in production the link URL is FRONTEND_URL_PROD or the hosted frontend |
| Urls.AllowedUrls | src/utils/urlHelper.js:19-30 | there is always at least one allowed origin, and exactly one in production |
| Urls.FrontendUrlIsFirstAllowed | src/utils/urlHelper.js:4-30 | the link URL is always the first allowed origin, and in development the allowed origins are the trimmed comma-separated entries of FRONTEND_URL_DEV |
| Urls.Defaults | src/utils/urlHelper.js:4-30 | with nothing configured, development links to http://localhost:4200 and production to https://taskeer.onrender.com |

## Where the code and its documented behaviour differ

The model follows the code in each of these cases:

- Joining by key reactivates an inactive row with its old role, rather than
  as a collaborator (`ListSharing.JoinKeepsRole`).
- Inviting by e-mail is blocked by any existing row of the user, active or
  not.
- The key-retry loops of key generation and list creation never report
  exhaustion. After ten regenerations the last candidate is used unchecked (`ListSharing.KeyRetry`,
  `ListCreate.CreateList`).
- The role maps pass unknown names through unchanged (names of
  Object.prototype members aside, see below), and the stored name
  'visor' is accepted by the role checks of the invite and modify-role
  handlers (`Roles.AcceptedNames`).
- Unsharing deletes every grant row of the list, the creator's included
  (`ListSharing.UnshareClosesList`).
- The category permission check calls a helper that compartir.utils.js does
  not export. Its error is caught, so every non-owner is denied
  (`Categories.MayAct`).
- List creation copies category rows that are active whether or not they
  were accepted (`ListCreate.Inheritors`).
- The update handler of tasks never forwards `miDia`, so it is never written
  by that route (`Tasks.UpdateRequestIgnoresMiDia`).

## Left out

- SQL text, joins, transactions and connection handling: each handler is one
  atomic step on `Store.State`. A failure leaves the state unchanged, which
  is what the rollback achieves. Join, leave and unshare run without
  a transaction in the source; the model makes them atomic as well.
- Timestamps (`NOW()`, `CURRENT_TIMESTAMP`): a `now` input appears only where
  an order depends on it (fechaCompartido, audit and invitation dates, note
  updates).
- Orders on names and on importante, which the model replaces by id order:
  - `ORDER BY l.nombre` of obtenerListasCompartidas (`ListViews.SharedLists`);
  - the `u.nombre` tie-break of the alternative listarPorLista
    (`GrantStoreAlt.ListActive`), whose `lc.esCreador DESC` key is modelled;
  - `ORDER BY l.importante DESC, l.nombre` of obtenerConListas
    (`Categories.ListItems`): lists carry no importante flag here;
  - `ORDER BY c.nombre` of obtenerTodas and obtenerCategorias
    (`Categories.AllIds`, `Categories.UserCategories`).
  The orders on creation flags, dates and positions are modelled.
- SQL string comparison is modelled as exact equality. MySQL's default
  collations compare `email = ?` and other string columns ignoring letter
  case and trailing spaces, so `ListSharing.UserByEmail` finds a user only
  under the exact stored spelling, where the database would also accept
  another case.
- Categories.Delete and Categories.DeleteCategory: what the table's
  foreign keys do to the category's lists and grant rows when the
  category row is deleted (cascade, set null or refusal) is schema, not
  part of the source; the model deletes the category row only.
- The rows of a query without ORDER BY: the model takes the lowest id as the
  first row. MySQL gives no order, so any choice is a modelling decision.
- Randomness: the share-key generator is given its random draws
  (`SharingUtils.GenerateKey`). generarTokenInvitacion and
  calcularFechaExpiracion in compartir.utils.js (crypto tokens, the clock)
  are not modelled. An invitation's token and expiry are inputs of
  `Invitations.Create`.
- Concurrency: concurrent requests, and key uniqueness across them.
- normalizarTipoNotificacion: nothing in the modelled handlers calls it.
- Read-only handlers that only run a query: obtenerNotificaciones, and the
  pending-invitation handler of invitacion.controller.js (lines 106-135).
  Their filters are modelled through `Invitations.PendingFor` and the
  notification rows.
- The Invitacion class bundled at the end of categoriaCompartida.js (lines
  225-317): src/models/invitacion.js is the one modelled. The two differ
  in one place: the bundled crear writes `activa` TRUE (lines 240-245),
  while invitacion.js leaves `activa` and `aceptada` to the column
  defaults.
- Invitations.Create: the new invitation is active and not accepted by the
  table's column defaults, which are not part of the source; the model
  assumes those defaults.
- crearNotificacionRepeticion and the reminder scheduler: they are timers
  and background jobs.
- The socket.io wiring, authentication, the route files, the HTTP server and
  CORS: these are I/O. The chat sender is the session identity
  (`Chat.Sender`).
- SSE heartbeat, broadcast and stale-connection cleanup: they run on timers
  over the open streams.
- `Sse.SendToUser`:
  - the write to a response is I/O, and the set `failing` says which
    writes throw;
  - `JSON.stringify` is the abstract parameter `encode`;
  - the insertion order of users in the registry is not modelled.
- The reading client of `Sse.FrameRoundTrip` handles the line, field,
  blank-line and `id` rules of section 9.2.6 of the WHATWG HTML Living
  Standard. It ignores the byte-order mark and the `retry` field, which
  formatSSE never writes.
- `Reminders.NextDate`: the month and year branches (mensual, personalizado
  in meses or años) depend on JavaScript `Date` overflow and return None.
  Dates are integer day numbers, so time zones and daylight saving are left
  out.
- Reminder contents: a reminder's JSON is abstracted to its date, kind,
  sent flag and creation time. Parsing the column is an input (the
  `Stored` cases).
- Tasks:
  - `idLista` counts as a list only when it is a non-zero number;
  - MySQL's coercion of other values is not modelled.
- Statistics:
  - percentages and averages involve floating point and are left out;
  - days are integer day numbers, so UTC conversion and daylight saving
    are left out.
- `Notes.Create` and `Notes.Duplicate`: the table's column defaults for
  `fijada` and `posicion` are a parameter. fechaActualizacion is not
  updated by the model's update.
- `Notes.Reorder`: the position updates run concurrently in the source. They
  are applied in index order here, so of a repeated id the last index wins.
- `Notes.Listing`: ties between equal sort keys are in id order; the
  database leaves them unspecified.
- `Email.ReplacePlaceholders`:
  - keys are matched literally, so a key containing regular-expression
    metacharacters is not modelled;
  - neither are `$` patterns in a replacement value.
- Loading e-mail templates and sending mail: these are I/O.
- `Urls`: environment variables are inputs.
- Chat:
  - the unread count is per list in which the user holds an active,
    accepted grant row, as the query joins on that table. An owner
    normally holds such a row, the creator row written when the list is
    created or first shared, and is counted through it; an owner without
    one sees none;
  - for the same reason, offline recipients include the owner exactly
    when the owner holds an active, accepted row.
- Tasks.Forwarded: before forwarding, the update handler rewrites a
  defined, non-null recordatorio into JSON text. Arrays are stringified, a
  date string becomes a one-reminder array stamped with the current time,
  and an object is wrapped in an array. That rewrite needs JSON parsing
  and the clock, so the value is forwarded as received. Whether it is
  undefined or null, which is all the model's write depends on, is the
  same either way.
- Tasks.AssignNotice: the route's id text is taken to be the decimal
  spelling of the id. A route id such as "007" is stored in the
  notification as given, which the model does not distinguish.
- ListSharing.ModifyRole and ListSharing.Revoke: for the same reason, the
  target id in their audit details is the decimal text of the id, not
  the route text as sent.
- Roles.ToStored and Roles.ToFrontend: for a name of an Object.prototype
  member, such as 'constructor', 'toString' or '__proto__', `mapeo[x] || x`
  returns the inherited member, not the name; the model returns the name.
  No handler's outcome depends on it: the invite and modify-role handlers
  re-check the translation against the four stored roles, which the
  inherited member fails just as the name does (`Roles.PrototypeKeyRefused`).
  ToFrontend is applied only to the rol column, which every modelled write
  fills with a name that has passed a role check.
- Chat.Preview: when the 100th code unit is the first half of a surrogate
  pair, `substring(0, 100)` keeps that lone half. A string of `char`
  cannot hold it, so the model's preview stops before the pair.
- SharingUtils.NormalizeEmail: `toLowerCase` is modelled for ASCII and the
  Latin-1 capitals only (`Text.LowerChar`). Other scripts, and the
  mappings that change a string's length, are left as they are.
- SharingUtils.NormalizeEmailIgnoresCase: for the same reason it covers
  case differences in ASCII and Latin-1 letters only.
- JavaScript arrays are not among the `Js.JsValue` cases. An array sent
  over SSE is typeof 'object', so formatSSE would frame it; the model's
  payloads are objects, strings, numbers, booleans, null and undefined.
- User accounts, passwords, tokens and time zones (usuario.js,
  timezone.utils.js): they are not part of the sharing core and rely on
  foreign libraries.

## Findings

| source | as written | input that shows it | evidently intended | confidence | as-written member | corrected member |
|---|---|---|---|---|---|---|
| src/controllers/estadisticas.controller.js:384-399 | rachaActual is set at the first matching day, and then only when diffDias is 0, so on distinct days it never exceeds 1 | completions today and yesterday give rachaActual 1 | the current streak is the number of consecutive days ending today or yesterday, 2 here | not executed | Stats.StreakAsWrittenCurrentAtMostOne | Stats.StreakLoop |
| src/controllers/estadisticas.controller.js:396-398 | a day that breaks the run resets rachaTemp to 1 without updating rachaMaxima | a single completion seven days ago gives rachaMaxima 0 | any completion day is a streak of at least 1 | not executed | Stats.StreakAsWrittenExamples | Stats.IntendedStreak |
| src/controllers/compartir/invitacion.controller.js:19-31 | the permission query reads the grant role without checking `activo` | an admin whose access was revoked can still invite | only an active admin or the owner may invite | not executed | Invitations.RevokedAdminMayInviteAsWritten | Invitations.InvitePermissionDifference |
| src/controllers/compartir/notificacion.controller.js:261-267 | accepting stores the role from the notification as given, a front-end name such as 'lector' | an invitation with rol 'lector' stores 'lector' in lista_compartida | the front-end name is mapped to the stored name, 'visor' | not executed | Notifications.AcceptAsWrittenStoresFrontendName | Notifications.AcceptStoresRole |
| src/controllers/tarea.controller.js:1091-1099 | the index guard compares `parseInt(indice)`, which is NaN for a non-number; every comparison with NaN is false, so it passes, and `splice(NaN, 1)` removes element 0 | index "x" on reminders [a, b] leaves [b] | a non-numeric index is rejected with 400 | not executed | Reminders.RemoveAsWrittenTakesNaNAsZero | Reminders.RemoveAgreesOnNumbers |
| src/models/categoria.js:152-186 | the query selects `c.*` and then `l.compartible` and `l.claveCompartir` under the same names, so the row keeps the list's values, and the category header is built from rows[0] | a shareable category with key CATKEY01 holding one private list without a key reads compartible false and claveCompartir null; a category with no list reads null for both | the header reports the category's own compartible and claveCompartir | not executed | Categories.HeaderAsWrittenShowsTheList | Categories.WithListsOf |
