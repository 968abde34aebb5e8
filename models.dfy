/** The records and enums of the client's data model (src/models/index.ts).
    JavaScript `number` fields are modelled as unbounded integers. */
module Models {
  import opened Wrappers

  /** The four kinds of slide element. */
  datatype ElementType = Text | Rectangle | Circle | Image

  /** The three permission levels of a participant. */
  datatype UserRole = Creator | Editor | Viewer

  /** A positioned visual object; it names its owning slide by `slideId`.
      (`kind` stands for the source's `type` field, a Dafny keyword.) */
  datatype SlideElement = SlideElement(
    id: int,
    slideId: int,
    kind: ElementType,
    content: string,
    positionX: int,
    positionY: int,
    width: int,
    height: int,
    color: string,
    style: string)

  /** A page of a presentation, with its rank `order` and its ordered elements. */
  datatype Slide = Slide(id: int, presentationId: int, order: int, elements: seq<SlideElement>)

  datatype Presentation = Presentation(
    id: int,
    title: string,
    author: string,
    uploadDate: string,
    slides: seq<Slide>)

  /** A live participant, identified by the connection id the hub assigned. */
  datatype PresentationUser = PresentationUser(
    connectionId: string,
    nickname: string,
    presentationId: int,
    role: UserRole)

  /** A `Partial<SlideElement>` as the editor sends it: everything but the id. */
  datatype ElementDraft = ElementDraft(
    slideId: int,
    kind: ElementType,
    content: string,
    positionX: int,
    positionY: int,
    width: int,
    height: int,
    color: string,
    style: string)

  /** The numeric code of an element kind on the wire. */
  function ElementTypeCode(t: ElementType): (c: int)
    ensures 0 <= c < 4
  {
    match t
    case Text => 0
    case Rectangle => 1
    case Circle => 2
    case Image => 3
  }

  /** Decoding a wire code: exactly the codes 0..3 name a kind, each a different one. */
  function ElementTypeFromCode(c: int): (t: Option<ElementType>)
    ensures t.Some? <==> 0 <= c < 4
    ensures t.Some? ==> ElementTypeCode(t.value) == c
  {
    if c == 0 then Some(Text)
    else if c == 1 then Some(Rectangle)
    else if c == 2 then Some(Circle)
    else if c == 3 then Some(Image)
    else None
  }

  lemma ElementTypeCodeRoundTrip(t: ElementType)
    ensures ElementTypeFromCode(ElementTypeCode(t)) == Some(t)
  {
  }

  /** The numeric code of a role on the wire. */
  function UserRoleCode(r: UserRole): (c: int)
    ensures 0 <= c < 3
  {
    match r
    case Creator => 0
    case Editor => 1
    case Viewer => 2
  }

  /** Decoding a wire code: exactly the codes 0..2 name a role, each a different one. */
  function UserRoleFromCode(c: int): (r: Option<UserRole>)
    ensures r.Some? <==> 0 <= c < 3
    ensures r.Some? ==> UserRoleCode(r.value) == c
  {
    if c == 0 then Some(Creator)
    else if c == 1 then Some(Editor)
    else if c == 2 then Some(Viewer)
    else None
  }

  lemma UserRoleCodeRoundTrip(r: UserRole)
    ensures UserRoleFromCode(UserRoleCode(r)) == Some(r)
  {
  }
}
