/** The task detail screen: who may comment, who is sent to the progress-only
    editor, who may open, edit and delete a comment, and the comment composer's
    state (draft, comment being edited, open comment menus). */
module TaskDetail {

  import opened Wrappers
  import opened Text
  import opened Domain
  import TaskList

  /** `canComment`: admins, the task's creator and its assignees; the screen
      guards the assignee test against a missing list. */
  predicate CanComment(role: Role, userId: int, t: Task) {
    role == Admin || t.createdBy == userId || (t.assignedUserIds.Some? && userId in t.assignedUserIds.value)
  }

  /** `allowProgressOnly`, passed to the edit screen: neither admin nor creator. */
  predicate AllowProgressOnly(role: Role, userId: int, t: Task) {
    role != Admin && t.createdBy != userId
  }

  /** The task menu offers "Delete Task" to admins only. */
  predicate OffersTaskDelete(role: Role) {
    role == Admin
  }

  /** A long-press opens or closes a comment's menu for its author or an admin. */
  predicate CanOpenCommentMenu(role: Role, userId: int, c: Comment) {
    c.userId == userId || role == Admin
  }

  /** The comment menu offers "Edit" to the comment's author only. */
  predicate OffersEdit(userId: int, c: Comment) {
    c.userId == userId
  }

  /** The comment menu offers "Delete" to admins and to the comment's author. */
  predicate OffersDelete(role: Role, userId: int, c: Comment) {
    role == Admin || c.userId == userId
  }

  /** Whoever may comment is whoever the task list shows the task to. */
  lemma CommentersAreViewers(role: Role, userId: int, t: Task)
    ensures CanComment(role, userId, t) <==> TaskList.Visible(t, role, userId)
  {
  }

  /** The progress-only editor is never given to an admin or to the creator;
      among those who may comment it is given exactly to the assignees who did
      not create the task. */
  lemma ProgressOnlyIsForAssignees(role: Role, userId: int, t: Task)
    ensures role == Admin || t.createdBy == userId ==> !AllowProgressOnly(role, userId, t)
    ensures CanComment(role, userId, t) && AllowProgressOnly(role, userId, t) ==> userId in Assignees(t)
  {
  }

  /** Whoever is offered to delete the task may also comment on it and edits
      it with the full editor. */
  lemma TaskDeletersEditFully(role: Role, userId: int, t: Task)
    ensures OffersTaskDelete(role) ==> CanComment(role, userId, t) && !AllowProgressOnly(role, userId, t)
  {
  }

  /** An admin who did not write a comment is never offered to edit it. */
  lemma AdminCannotEditOthers(userId: int, c: Comment)
    requires c.userId != userId
    ensures !OffersEdit(userId, c)
    ensures OffersDelete(Admin, userId, c)
  {
  }

  /** Whoever may edit a comment may delete it, and the menu opens exactly for
      those who may delete. */
  lemma EditImpliesDelete(role: Role, userId: int, c: Comment)
    ensures OffersEdit(userId, c) ==> OffersDelete(role, userId, c)
    ensures CanOpenCommentMenu(role, userId, c) <==> OffersDelete(role, userId, c)
  {
  }

  /** The requests the composer issues. */
  datatype CommentRequest =
    | PutComment(commentId: int, text: string)
    | PostComment(taskId: int, text: string)
    | DeleteComment(commentId: int)

  const SaveFailed := "Failed to save comment."
  const DeleteFailed := "Failed to delete comment."

  /** The screen's state for one task, seen by one user. */
  class CommentComposer {
    const role: Role
    const userId: int
    const task: Task
    var newComment: string
    var editingCommentId: Option<int>
    var commentMenu: map<int, bool>
    var error: string

    constructor (role: Role, userId: int, task: Task)
      ensures this.role == role && this.userId == userId && this.task == task
      ensures newComment == [] && editingCommentId == None && commentMenu == map[] && error == []
    {
      this.role := role;
      this.userId := userId;
      this.task := task;
      newComment := [];
      editingCommentId := None;
      commentMenu := map[];
      error := [];
    }

    /** `if (editingCommentId)`: JavaScript treats a missing id and the id 0 as false. */
    predicate IsEditing()
      reads this
    {
      editingCommentId.Some? && editingCommentId.value != 0
    }

    /** `commentMenu[id]` is truthy: a comment without an entry has its menu closed. */
    predicate MenuOpen(id: int)
      reads this
    {
      id in commentMenu && commentMenu[id]
    }

    /** `submitComment`, shown only to those who may comment. `succeeded` is
        whether the backend accepted the request. A blank draft changes nothing
        and sends nothing. Otherwise the draft, as typed, goes to the comment
        being edited or to the task as a new comment; on success the draft is
        cleared and an edit ends, on failure only the error changes. */
    method SubmitComment(succeeded: bool) returns (sent: Option<CommentRequest>)
      requires CanComment(role, userId, task)
      modifies this
      ensures sent.None? <==> old(IsBlank(newComment))
      ensures sent.Some? && old(IsEditing()) ==> sent.value == PutComment(old(editingCommentId).value, old(newComment))
      ensures sent.Some? && !old(IsEditing()) ==> sent.value == PostComment(task.id, old(newComment))
      ensures sent.None? ==> unchanged(this)
      ensures sent.Some? && succeeded ==>
                && newComment == []
                && editingCommentId == (if old(IsEditing()) then None else old(editingCommentId))
                && error == old(error)
      ensures sent.Some? && !succeeded ==>
                newComment == old(newComment) && editingCommentId == old(editingCommentId) && error == SaveFailed
      ensures commentMenu == old(commentMenu)
    {
      if IsBlank(newComment) {
        return None;
      }
      if IsEditing() {
        sent := Some(PutComment(editingCommentId.value, newComment));
        if succeeded {
          editingCommentId := None;
        }
      } else {
        sent := Some(PostComment(task.id, newComment));
      }
      if succeeded {
        newComment := [];
      } else {
        error := SaveFailed;
      }
    }

    /** The long-press handler: for the author or an admin it flips that
        comment's menu flag, and no other entry changes. */
    method LongPress(c: Comment)
      modifies this
      ensures CanOpenCommentMenu(role, userId, c) ==>
                commentMenu == old(commentMenu)[c.id := !old(MenuOpen(c.id))]
      ensures !CanOpenCommentMenu(role, userId, c) ==> commentMenu == old(commentMenu)
      ensures forall id :: id != c.id ==> MenuOpen(id) == old(MenuOpen(id))
      ensures newComment == old(newComment) && editingCommentId == old(editingCommentId) && error == old(error)
    {
      if c.userId == userId || role == Admin {
        commentMenu := commentMenu[c.id := !MenuOpen(c.id)];
      }
    }

    /** The "Edit" item, present while the comment's menu is open and its
        author is the user: the draft becomes the comment's text, that comment
        is the one being edited and its menu closes. */
    method ChooseEdit(c: Comment) returns (offered: bool)
      modifies this
      ensures offered == (old(MenuOpen(c.id)) && OffersEdit(userId, c))
      ensures offered ==> newComment == c.text && editingCommentId == Some(c.id)
                          && commentMenu == old(commentMenu)[c.id := false]
      ensures !offered ==> unchanged(this)
      ensures error == old(error)
    {
      offered := MenuOpen(c.id) && c.userId == userId;
      if offered {
        newComment := c.text;
        editingCommentId := Some(c.id);
        commentMenu := commentMenu[c.id := false];
      }
    }

    /** The "Delete" item, present while the comment's menu is open for an
        admin or the author; the request goes out once the user confirms. */
    method ChooseDelete(c: Comment, confirmed: bool, succeeded: bool) returns (sent: Option<CommentRequest>)
      modifies this
      ensures sent.Some? <==> old(MenuOpen(c.id)) && OffersDelete(role, userId, c) && confirmed
      ensures sent.Some? ==> sent.value == DeleteComment(c.id)
      ensures sent.Some? && !succeeded ==> error == DeleteFailed
      ensures sent.None? || succeeded ==> error == old(error)
      ensures newComment == old(newComment) && editingCommentId == old(editingCommentId)
      ensures commentMenu == old(commentMenu)
    {
      sent := None;
      if MenuOpen(c.id) && (role == Admin || c.userId == userId) && confirmed {
        sent := Some(DeleteComment(c.id));
        if !succeeded {
          error := DeleteFailed;
        }
      }
    }
  }
}
