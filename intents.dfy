/** Small decision rules of the editor (src/components/PresentationEditor.tsx): the nickname and
    creator hint taken from navigation state and durable storage, the permission gates derived
    from the local participant's role, and the default records of new elements. */
module Intents {
  import opened Wrappers
  import opened Models

  /** Keys of the browser's durable key-value store that the client uses. */
  datatype StorageKey = NicknameKey | CreatedMarkerKey(presentationId: int)

  type Storage = map<StorageKey, string>

  function Lookup(st: Storage, k: StorageKey): Option<string>
  {
    if k in st then Some(st[k]) else None
  }

  /** `a || fallback` for an optional string: a missing or empty string gives way to the fallback. */
  function OrElse(a: Option<string>, fallback: string): (r: string)
    ensures a.Some? && a.value != "" ==> r == a.value
    ensures a.None? || a.value == "" ==> r == fallback
  {
    if a.Some? && a.value != "" then a.value else fallback
  }

  /** The editor's nickname: navigation state, else the stored nickname, else "Guest";
      never empty. */
  function EditorNickname(fromNavigation: Option<string>, st: Storage): (r: string)
    ensures r != ""
    ensures fromNavigation.Some? && fromNavigation.value != "" ==> r == fromNavigation.value
    ensures (fromNavigation.None? || fromNavigation.value == "") && NicknameKey in st && st[NicknameKey] != "" ==>
              r == st[NicknameKey]
    ensures (fromNavigation.None? || fromNavigation.value == "") && (NicknameKey !in st || st[NicknameKey] == "") ==>
              r == "Guest"
  {
    OrElse(fromNavigation, OrElse(Lookup(st, NicknameKey), "Guest"))
  }

  /** The creator hint sent with the join call: the navigation flag, or a stored marker for
      this presentation whose text is exactly "true". */
  function CreatorHint(fromNavigation: bool, st: Storage, presentationId: int): (r: bool)
    ensures r <==> fromNavigation ||
                   (CreatedMarkerKey(presentationId) in st && st[CreatedMarkerKey(presentationId)] == "true")
  {
    fromNavigation || Lookup(st, CreatedMarkerKey(presentationId)) == Some("true")
  }

  /** The mount effect: a creator records the marker for this presentation. */
  function PersistCreatorMarker(st: Storage, presentationId: int, isCreator: bool): (r: Storage)
    ensures isCreator ==> Lookup(r, CreatedMarkerKey(presentationId)) == Some("true")
    ensures forall k :: k != CreatedMarkerKey(presentationId) ==> Lookup(r, k) == Lookup(st, k)
    ensures !isCreator ==> r == st
  {
    if isCreator then st[CreatedMarkerKey(presentationId) := "true"] else st
  }

  /** The hint is sticky: once a visit finds the user to be the creator and the marker is
      stored, a later visit without the navigation flag finds it too; the markers of other
      presentations are not affected. */
  lemma CreatorHintSticky(fromNavigation: bool, st: Storage, presentationId: int, other: int)
    requires other != presentationId
    ensures var st' := PersistCreatorMarker(st, presentationId, CreatorHint(fromNavigation, st, presentationId));
            CreatorHint(false, st', presentationId) == CreatorHint(fromNavigation, st, presentationId) &&
            CreatorHint(false, st', other) == CreatorHint(false, st, other)
  {
    var st' := PersistCreatorMarker(st, presentationId, CreatorHint(fromNavigation, st, presentationId));
    assert Lookup(st', CreatedMarkerKey(other)) == Lookup(st, CreatedMarkerKey(other));
  }

  /** The local role: the cached participant's role, Viewer while there is none. */
  function EffectiveRole(current: Option<PresentationUser>): (r: UserRole)
    ensures current.None? ==> r == Viewer
    ensures current.Some? ==> r == current.value.role
  {
    if current.Some? then current.value.role else Viewer
  }

  predicate HasCreatorPermission(role: UserRole)
  {
    role == Creator
  }

  predicate HasEditorPermission(role: UserRole)
  {
    HasCreatorPermission(role) || role == Editor
  }

  /** Add/remove-slide controls are shown to the creator only. */
  function SlideControlsShown(current: Option<PresentationUser>): (r: bool)
    ensures r <==> current.Some? && current.value.role == Creator
  {
    HasCreatorPermission(EffectiveRole(current))
  }

  /** The remove-slide control is enabled only while more than one slide exists. */
  function RemoveSlideEnabled(p: Presentation): (r: bool)
    ensures r ==> |p.slides| >= 2
    ensures |p.slides| >= 2 ==> r
  {
    |p.slides| > 1
  }

  /** The element tools are shown to the creator and to editors. */
  function ToolsShown(current: Option<PresentationUser>): (r: bool)
    ensures r <==> current.Some? && current.value.role != Viewer
  {
    HasEditorPermission(EffectiveRole(current))
  }

  /** Role controls are shown, to the creator only, beside every other participant. */
  function RoleControlsShown(current: Option<PresentationUser>, user: PresentationUser): (r: bool)
    ensures r ==> current.Some? && current.value.role == Creator
    ensures r ==> user.connectionId != current.value.connectionId
    ensures current.Some? && current.value.role == Creator && user.connectionId != current.value.connectionId ==> r
  {
    HasCreatorPermission(EffectiveRole(current)) &&
    (current.None? || user.connectionId != current.value.connectionId)
  }

  /** Whatever the creator may do an editor's tools allow too, and a viewer (or a user not
      yet on the roster) sees no mutating control at all. */
  lemma PermissionsNested(current: Option<PresentationUser>, user: PresentationUser)
    ensures SlideControlsShown(current) ==> ToolsShown(current)
    ensures RoleControlsShown(current, user) ==> SlideControlsShown(current)
    ensures EffectiveRole(current) == Viewer ==>
              !ToolsShown(current) && !SlideControlsShown(current) && !RoleControlsShown(current, user)
  {
  }

  /** An editor is never offered a role change. */
  lemma EditorCannotChangeRoles(current: Option<PresentationUser>, user: PresentationUser)
    requires current.Some? && current.value.role == Editor
    ensures !RoleControlsShown(current, user)
    ensures ToolsShown(current) && !SlideControlsShown(current)
  {
  }

  /** The guard of element clicks, drags and moves: only a cached Viewer is refused. */
  function InteractionRefused(current: Option<PresentationUser>): (r: bool)
    ensures r <==> current.Some? && current.value.role == Viewer
  {
    current.Some? && current.value.role == Viewer
  }

  /** The move guard is weaker than the tool gate: before the local participant is known,
      no tool is shown, yet element moves are not refused. */
  lemma MoveGuardAdmitsUnknownUser()
    ensures !InteractionRefused(None) && !ToolsShown(None)
  {
  }

  /** The fixed record each "add" handler sends for a new element of `kind`. */
  function DefaultDraft(slideId: int, kind: ElementType, imageData: string): (d: ElementDraft)
    ensures d.slideId == slideId && d.kind == kind
    ensures d.positionX == 200 && d.positionY == 200 && d.style == "{}"
    ensures d.width > 0 && d.height > 0
    ensures kind == Image ==> d.content == imageData
    ensures kind == Rectangle || kind == Circle ==> d.content == ""
  {
    match kind
    case Text => ElementDraft(slideId, Text, "# New Text\nClick to edit", 200, 200, 300, 100, "#000000", "{}")
    case Rectangle => ElementDraft(slideId, Rectangle, "", 200, 200, 150, 100, "#3498db", "{}")
    case Circle => ElementDraft(slideId, Circle, "", 200, 200, 100, 100, "#e74c3c", "{}")
    case Image => ElementDraft(slideId, Image, imageData, 200, 200, 300, 200, "#000000", "{}")
  }

  /** The draft an "add element" handler sends: one for the slide under the cursor, or nothing
      when there is no presentation or no slide at the cursor. */
  function NewElementDraft(p: Option<Presentation>, cursor: nat, kind: ElementType, imageData: string): (r: Option<ElementDraft>)
    ensures r.Some? <==> p.Some? && cursor < |p.value.slides|
    ensures r.Some? ==> r.value == DefaultDraft(p.value.slides[cursor].id, kind, imageData)
  {
    if p.None? || cursor >= |p.value.slides| then None
    else Some(DefaultDraft(p.value.slides[cursor].id, kind, imageData))
  }
}
