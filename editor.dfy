/** The editor component's state (src/components/PresentationEditor.tsx) as an object whose
    fields the inbound-event handlers and the user-intent handlers update in place. Each
    handler applies the pure reducer or rule of Roster, Slides, Elements or Intents; an
    intent handler also returns the request it hands to the service, and takes the settled
    outcome of that request as `callOk`. */
module Editor {
  import opened Wrappers
  import opened Models
  import opened Hub
  import opened Roster
  import opened Slides
  import opened Elements
  import opened Intents

  /** The transient message an "add element" handler shows when its request fails. */
  function AddElementError(kind: ElementType): (msg: string)
    ensures |msg| > 0
  {
    match kind
    case Text => "Failed to add text element"
    case Rectangle => "Failed to add rectangle"
    case Circle => "Failed to add circle"
    case Image => "Failed to add image"
  }

  /** The message shown when the snapshot fetched at mount comes back empty. */
  const LoadError := "Failed to load presentation. It may not exist or the server is unavailable."

  class EditorState {
    const nickname: string
    var presentation: Option<Presentation>
    var users: seq<PresentationUser>
    var currentUser: Option<PresentationUser>
    var currentSlideIndex: nat
    var selectedElement: Option<SlideElement>
    var editingText: string
    var errorMessage: Option<string>

    /** The slide cursor names a slide, or is 0 when there is none to name. */
    predicate Valid()
      reads this
    {
      CursorInRange(presentation, currentSlideIndex)
    }

    constructor (nickname: string)
      ensures this.nickname == nickname
      ensures presentation.None? && users == [] && currentUser.None? && currentSlideIndex == 0
      ensures selectedElement.None? && editingText == "" && errorMessage.None?
      ensures Valid()
    {
      this.nickname := nickname;
      presentation := None;
      users := [];
      currentUser := None;
      currentSlideIndex := 0;
      selectedElement := None;
      editingText := "";
      errorMessage := None;
    }

    /** The snapshot fetched at mount replaces the presentation; when the fetch yields nothing
        the error is shown and the presentation stays as it was. */
    method LoadSnapshot(data: Option<Presentation>)
      modifies this`presentation, this`errorMessage
      ensures data.None? ==> presentation == old(presentation) && errorMessage == Some(LoadError)
      ensures data.Some? ==> presentation == data && errorMessage == old(errorMessage)
      ensures data.Some? ==> (Valid() <==> currentSlideIndex == 0 || currentSlideIndex < |data.value.slides|)
    {
      if data.None? {
        errorMessage := Some(LoadError);
        return;
      }
      presentation := data;
    }

    // ------------------------------------------------------------ inbound events

    method OnUserJoined(user: PresentationUser)
      modifies this`users
      ensures users == UserJoined(old(users), user)
    {
      users := UserJoined(users, user);
    }

    method OnUserLeft(connectionId: string)
      modifies this`users
      ensures users == UserLeft(old(users), connectionId)
    {
      users := UserLeft(users, connectionId);
    }

    method OnUserList(userList: seq<PresentationUser>)
      modifies this`users, this`currentUser
      ensures users == userList
      ensures currentUser == CurrentUserFromList(userList, nickname, old(currentUser))
    {
      users := userList;
      currentUser := CurrentUserFromList(userList, nickname, currentUser);
    }

    method OnUserRoleChanged(connectionId: string, role: UserRole)
      modifies this`users, this`currentUser
      ensures users == UserRoleChanged(old(users), connectionId, role)
      ensures currentUser == CurrentUserRoleChanged(old(currentUser), connectionId, role)
    {
      users := UserRoleChanged(users, connectionId, role);
      currentUser := CurrentUserRoleChanged(currentUser, connectionId, role);
    }

    method OnSlideAdded(slide: Slide)
      modifies this`presentation
      ensures presentation == SlideAdded(old(presentation), slide)
      ensures old(Valid()) ==> Valid()
    {
      presentation := SlideAdded(presentation, slide);
    }

    /** Uses the corrected cursor rule (see SlideRemovedCursorFixed). */
    method OnSlideRemoved(slideId: int)
      modifies this`presentation, this`currentSlideIndex
      ensures presentation == SlideRemoved(old(presentation), slideId)
      ensures currentSlideIndex == SlideRemovedCursorFixed(old(presentation), old(currentSlideIndex), slideId)
      ensures old(Valid()) ==> Valid()
    {
      currentSlideIndex := SlideRemovedCursorFixed(presentation, currentSlideIndex, slideId);
      presentation := SlideRemoved(presentation, slideId);
    }

    method OnElementAdded(element: SlideElement)
      modifies this`presentation
      ensures presentation == ElementAdded(old(presentation), element)
      ensures old(Valid()) ==> Valid()
    {
      presentation := ElementAdded(presentation, element);
    }

    method OnElementUpdated(element: SlideElement)
      modifies this`presentation, this`selectedElement
      ensures presentation == ElementUpdated(old(presentation), element)
      ensures selectedElement == SelectionAfterUpdate(old(selectedElement), element)
      ensures old(Valid()) ==> Valid()
    {
      presentation := ElementUpdated(presentation, element);
      selectedElement := SelectionAfterUpdate(selectedElement, element);
    }

    method OnElementPositionUpdated(id: int, positionX: int, positionY: int)
      modifies this`presentation
      ensures presentation == ElementPositionUpdated(old(presentation), id, positionX, positionY)
      ensures old(Valid()) ==> Valid()
    {
      presentation := ElementPositionUpdated(presentation, id, positionX, positionY);
    }

    method OnElementRemoved(id: int)
      modifies this`presentation, this`selectedElement
      ensures presentation == ElementRemoved(old(presentation), id)
      ensures selectedElement == SelectionAfterRemove(old(selectedElement), id)
      ensures old(Valid()) ==> Valid()
    {
      presentation := ElementRemoved(presentation, id);
      selectedElement := SelectionAfterRemove(selectedElement, id);
    }

    method OnError(message: string)
      modifies this`errorMessage
      ensures errorMessage == Some(message)
    {
      errorMessage := Some(message);
    }

    // ------------------------------------------------------------ user intents

    /** `handleAddSlide`: asks for a slide ranked above every existing one. */
    method HandleAddSlide(callOk: bool) returns (request: Option<Request>)
      modifies this`errorMessage
      ensures presentation.None? ==> request.None? && errorMessage == old(errorMessage)
      ensures presentation.Some? ==> request == Some(AddSlide(NextSlideOrder(presentation.value.slides)))
      ensures presentation.Some? ==>
                errorMessage == if callOk then old(errorMessage) else Some("Failed to add slide")
    {
      request := None;
      if presentation.Some? {
        request := Some(AddSlide(NextSlideOrder(presentation.value.slides)));
        if !callOk {
          errorMessage := Some("Failed to add slide");
        }
      }
    }

    /** `handleRemoveSlide`: asks to remove the slide under the cursor. */
    method HandleRemoveSlide(callOk: bool) returns (request: Option<Request>)
      modifies this`errorMessage
      ensures var target := RemoveSlideTarget(presentation, currentSlideIndex);
              (target.None? ==> request.None? && errorMessage == old(errorMessage)) &&
              (target.Some? ==>
                 request == Some(RemoveSlide(target.value)) &&
                 errorMessage == if callOk then old(errorMessage) else Some("Failed to remove slide"))
    {
      request := None;
      var target := RemoveSlideTarget(presentation, currentSlideIndex);
      if target.Some? {
        request := Some(RemoveSlide(target.value));
        if !callOk {
          errorMessage := Some("Failed to remove slide");
        }
      }
    }

    /** `handleAddTextElement`, `handleAddRectangle`, `handleAddCircle`, `handleAddImage`. */
    method HandleAddElement(kind: ElementType, imageData: string, callOk: bool) returns (request: Option<Request>)
      modifies this`errorMessage
      ensures var draft := NewElementDraft(presentation, currentSlideIndex, kind, imageData);
              (draft.None? ==> request.None? && errorMessage == old(errorMessage)) &&
              (draft.Some? ==>
                 request == Some(AddElement(draft.value)) &&
                 errorMessage == if callOk then old(errorMessage) else Some(AddElementError(kind)))
    {
      request := None;
      var draft := NewElementDraft(presentation, currentSlideIndex, kind, imageData);
      if draft.Some? {
        request := Some(AddElement(draft.value));
        if !callOk {
          errorMessage := Some(AddElementError(kind));
        }
      }
    }

    /** `handleElementClick`: select the element, and load a text element into the editor. */
    method HandleElementClick(element: SlideElement)
      modifies this`selectedElement, this`editingText
      ensures InteractionRefused(currentUser) ==>
                selectedElement == old(selectedElement) && editingText == old(editingText)
      ensures !InteractionRefused(currentUser) ==> selectedElement == Some(element)
      ensures !InteractionRefused(currentUser) ==>
                editingText == if element.kind == Text then element.content else old(editingText)
    {
      if !InteractionRefused(currentUser) {
        selectedElement := Some(element);
        if element.kind == Text {
          editingText := element.content;
        }
      }
    }

    /** `handleElementMove`: the optimistic local move, then the absolute position is sent. */
    method HandleElementMove(element: SlideElement, deltaX: int, deltaY: int) returns (request: Option<Request>)
      modifies this`presentation
      ensures InteractionRefused(currentUser) ==> request.None? && presentation == old(presentation)
      ensures !InteractionRefused(currentUser) ==>
                presentation == MovePatch(old(presentation), element, element.positionX + deltaX, element.positionY + deltaY) &&
                request == Some(UpdateElementPosition(element.id, element.positionX + deltaX, element.positionY + deltaY))
      ensures old(Valid()) ==> Valid()
    {
      request := None;
      if !InteractionRefused(currentUser) {
        var x, y := element.positionX + deltaX, element.positionY + deltaY;
        presentation := MovePatch(presentation, element, x, y);
        request := Some(UpdateElementPosition(element.id, x, y));
      }
    }

    /** `handleTextSave`: send the selected element with the edited text; on success the
        selection and the edit buffer are cleared. */
    method HandleTextSave(callOk: bool) returns (request: Option<Request>)
      modifies this`selectedElement, this`editingText, this`errorMessage
      ensures old(selectedElement).None? ==>
                request.None? && selectedElement.None? && editingText == old(editingText) && errorMessage == old(errorMessage)
      ensures old(selectedElement).Some? ==>
                request == Some(UpdateElement(old(selectedElement).value.(content := old(editingText))))
      ensures old(selectedElement).Some? && callOk ==>
                selectedElement.None? && editingText == "" && errorMessage == old(errorMessage)
      ensures old(selectedElement).Some? && !callOk ==>
                selectedElement == old(selectedElement) && editingText == old(editingText) &&
                errorMessage == Some("Failed to update text")
    {
      request := None;
      if selectedElement.Some? {
        request := Some(UpdateElement(selectedElement.value.(content := editingText)));
        if callOk {
          selectedElement := None;
          editingText := "";
        } else {
          errorMessage := Some("Failed to update text");
        }
      }
    }

    /** `handleDeleteElement`: ask to remove the selected element; on success deselect it. */
    method HandleDeleteElement(callOk: bool) returns (request: Option<Request>)
      modifies this`selectedElement, this`errorMessage
      ensures old(selectedElement).None? ==>
                request.None? && selectedElement.None? && errorMessage == old(errorMessage)
      ensures old(selectedElement).Some? ==> request == Some(RemoveElement(old(selectedElement).value.id))
      ensures old(selectedElement).Some? && callOk ==> selectedElement.None? && errorMessage == old(errorMessage)
      ensures old(selectedElement).Some? && !callOk ==>
                selectedElement == old(selectedElement) && errorMessage == Some("Failed to delete element")
    {
      request := None;
      if selectedElement.Some? {
        request := Some(RemoveElement(selectedElement.value.id));
        if callOk {
          selectedElement := None;
        } else {
          errorMessage := Some("Failed to delete element");
        }
      }
    }

    /** `handleChangeUserRole`: forwards the change; only the rendering gates who sees it. */
    method HandleChangeUserRole(connectionId: string, role: UserRole, callOk: bool) returns (request: Option<Request>)
      modifies this`errorMessage
      ensures request == Some(ChangeUserRole(connectionId, role))
      ensures errorMessage == if callOk then old(errorMessage) else Some("Failed to change user role")
    {
      request := Some(ChangeUserRole(connectionId, role));
      if !callOk {
        errorMessage := Some("Failed to change user role");
      }
    }

    /** `handleChangeSlide`. */
    method HandleChangeSlide(index: int)
      modifies this`currentSlideIndex
      ensures currentSlideIndex == ChangeSlide(presentation, old(currentSlideIndex), index)
      ensures old(Valid()) ==> Valid()
    {
      currentSlideIndex := ChangeSlide(presentation, currentSlideIndex, index);
    }
  }
}
