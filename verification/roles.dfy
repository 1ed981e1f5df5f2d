/** Role vocabularies of the list-sharing controller. The database stores
    'admin', 'editor', 'colaborador' and 'visor'; the front end says
    'lector' where the database says 'visor'. The two maps translate the
    four known names and let any other name through unchanged, which is
    why a handler re-checks the translated name against the four stored
    roles before writing it. A name of an Object.prototype member, such as
    'constructor', is the exception: the JavaScript lookup finds the
    inherited member and returns it instead of the name. The model returns
    the name; the re-check refuses both. */
module Roles {

  const Admin := "admin"
  const Editor := "editor"
  const Collaborator := "colaborador"
  const Viewer := "visor"
  const Reader := "lector"
  /** The pseudo-role under which an owner appears in listings. */
  const Owner := "propietario"

  /** The four role names the grant tables accept. */
  predicate IsStoredRole(r: string) {
    r == Admin || r == Editor || r == Collaborator || r == Viewer
  }

  /** The four role names the front end sends. */
  predicate IsFrontendRole(r: string) {
    r == Admin || r == Editor || r == Collaborator || r == Reader
  }

  /** Front-end role name to stored role name (mapearRolFrontendADB). */
  function ToStored(name: string): (r: string)
    ensures IsFrontendRole(name) ==> IsStoredRole(r)
    ensures !IsFrontendRole(name) ==> r == name
  {
    if name == Reader then Viewer
    else name
  }

  /** Stored role name to front-end role name (mapearRolDBaFrontend). */
  function ToFrontend(name: string): (r: string)
    ensures IsStoredRole(name) ==> IsFrontendRole(r)
    ensures !IsStoredRole(name) ==> r == name
  {
    if name == Viewer then Reader
    else name
  }

  /** Translating a stored role out and back in gives it back. */
  lemma StoredRoundTrip(r: string)
    requires IsStoredRole(r)
    ensures ToStored(ToFrontend(r)) == r
  {
  }

  /** Translating a front-end role in and back out gives it back. */
  lemma FrontendRoundTrip(r: string)
    requires IsFrontendRole(r)
    ensures ToFrontend(ToStored(r)) == r
  {
  }

  /** The names a handler accepts after translation: the four front-end
      names and, because 'visor' passes through the map, 'visor' too. */
  lemma AcceptedNames(name: string)
    ensures IsStoredRole(ToStored(name)) <==> IsFrontendRole(name) || name == Viewer
  {
  }

  /** The two maps are inverse on the whole of their ranges: outside the
      known names both are the identity. */
  lemma ToFrontendInverse(name: string)
    requires name != Reader && name != Viewer
    ensures ToStored(ToFrontend(name)) == name && ToFrontend(ToStored(name)) == name
  {
  }

  /** Names the lookup `mapeo[x]` resolves on Object.prototype. */
  predicate IsPrototypeKey(name: string) {
    name in {"constructor", "toString", "toLocaleString", "valueOf", "hasOwnProperty",
             "isPrototypeOf", "propertyIsEnumerable", "__proto__", "__defineGetter__",
             "__defineSetter__", "__lookupGetter__", "__lookupSetter__"}
  }

  /** A prototype key is no front-end name, and its translation is no
      stored role, so the role guard refuses it just as it refuses the
      inherited member the JavaScript map returns. */
  lemma PrototypeKeyRefused(name: string)
    requires IsPrototypeKey(name)
    ensures !IsFrontendRole(name) && !IsStoredRole(name)
    ensures !IsStoredRole(ToStored(name))
  {
  }
}
