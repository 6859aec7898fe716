/**
 * The code-action popup of the editor core: its key-press focus
 * (`get_mode`, `check_condition`), the commands it submits, the popup state
 * it updates on `ShowCodeActions` and `CancelCodeActions`, and
 * `workspce_edits`, which flattens an LSP `WorkspaceEdit` into the text
 * edits of each document.
 */
module CodeAction {
  import opened Wrappers

  /** The editor modes of `crate::state::Mode`. */
  datatype Mode = Normal | Insert | Visual | Terminal

  /** `get_mode`: the popup always takes keys in insert mode. */
  function GetMode(): (m: Mode)
    ensures m == Insert
  {
    Insert
  }

  /** `check_condition`: the key-binding conditions the popup satisfies. */
  function CheckCondition(condition: string): (r: bool)
    ensures r <==> condition == "list_focus" || condition == "code_actions_focus"
  {
    match condition
    case "list_focus" => true
    case "code_actions_focus" => true
    case _ => false
  }

  /** The commands `run_command` reacts to; every other command is ignored. */
  datatype Command = CodeActionsCancel | ListNext | ListPrevious | ListSelect | OtherCommand

  /** The UI commands the popup handles in `event`. */
  datatype UiCommand = ShowCodeActions | CancelCodeActions

  /**
   * The UI commands `run_command` submits: `CancelCodeActions` after
   * `CodeActionsCancel` and after `ListSelect` (once the selection has been
   * applied), none otherwise.
   */
  function Submitted(command: Command): (r: seq<UiCommand>)
    ensures r == [] || r == [CancelCodeActions]
    ensures r != [] <==> command == CodeActionsCancel || command == ListSelect
  {
    match command
    case CodeActionsCancel => [CancelCodeActions]
    case ListSelect => [CancelCodeActions]
    case _ => []
  }

  /** The part of `LapceMainSplitData` the popup changes. */
  class MainSplit {
    var showCodeActions: bool
    var currentCodeActions: nat

    constructor (showCodeActions: bool, currentCodeActions: nat)
      ensures this.showCodeActions == showCodeActions && this.currentCodeActions == currentCodeActions
    {
      this.showCodeActions := showCodeActions;
      this.currentCodeActions := currentCodeActions;
    }

    /** `ShowCodeActions`: open the popup with the first action highlighted. */
    method ShowCodeActions()
      modifies this
      ensures showCodeActions && currentCodeActions == 0
    {
      showCodeActions := true;
      currentCodeActions := 0;
    }

    /** `CancelCodeActions`: close the popup; the highlighted index is kept. */
    method CancelCodeActions()
      modifies this
      ensures !showCodeActions && currentCodeActions == old(currentCodeActions)
    {
      showCodeActions := false;
    }

    /** The popup's reaction to one UI command in `event`. */
    method Handle(command: UiCommand)
      modifies this
      ensures command.ShowCodeActions? ==> showCodeActions && currentCodeActions == 0
      ensures command.CancelCodeActions? ==> !showCodeActions && currentCodeActions == old(currentCodeActions)
    {
      if command.ShowCodeActions? {
        ShowCodeActions();
      } else {
        CancelCodeActions();
      }
    }
  }

  // LSP types (lsp_types), with the fields `workspce_edits` looks at.

  type Url = string

  datatype Position = Position(line: nat, character: nat)
  datatype Range = Range(start: Position, end: Position)
  datatype TextEdit = TextEdit(range: Range, newText: string)
  datatype AnnotatedTextEdit = AnnotatedTextEdit(textEdit: TextEdit, annotationId: string)
  datatype OneOf<L, R> = Left(left: L) | Right(right: R)
  datatype TextDocumentEdit = TextDocumentEdit(uri: Url, version: Option<int>, edits: seq<OneOf<TextEdit, AnnotatedTextEdit>>)
  datatype ResourceOp = Create(uri: Url) | Rename(oldUri: Url, newUri: Url) | Delete(uri: Url)
  datatype DocumentChangeOperation = Op(op: ResourceOp) | Edit(edit: TextDocumentEdit)
  datatype DocumentChanges = Edits(edits: seq<TextDocumentEdit>) | Operations(ops: seq<DocumentChangeOperation>)
  datatype WorkspaceEdit = WorkspaceEdit(changes: Option<map<Url, seq<TextEdit>>>, documentChanges: Option<DocumentChanges>)

  datatype CodeActionOrCommand = CommandItem(title: string) | CodeActionItem(title: string, edit: Option<WorkspaceEdit>)

  /** A plain edit as is, an annotated one as its inner `text_edit`. */
  function Unwrap(e: OneOf<TextEdit, AnnotatedTextEdit>): TextEdit
  {
    match e
    case Left(t) => t
    case Right(a) => a.textEdit
  }

  /** The text edits of one document, in order. */
  function UnwrapAll(es: seq<OneOf<TextEdit, AnnotatedTextEdit>>): (r: seq<TextEdit>)
    ensures |r| == |es|
    ensures forall k :: 0 <= k < |es| ==> r[k] == Unwrap(es[k])
  {
    if es == [] then [] else [Unwrap(es[0])] + UnwrapAll(es[1..])
  }

  /**
   * Collecting `(uri, edits)` pairs into a `HashMap`: the pairs are
   * inserted in order, so a later document with the same URI replaces an
   * earlier one.
   */
  function Collect(docs: seq<TextDocumentEdit>): map<Url, seq<TextEdit>>
  {
    if docs == [] then map[]
    else
      var last := docs[|docs| - 1];
      Collect(docs[..|docs| - 1])[last.uri := UnwrapAll(last.edits)]
  }

  /** The `Edit` entries of a list of operations, in order (the `filter_map`). */
  function EditsOf(ops: seq<DocumentChangeOperation>): (r: seq<TextDocumentEdit>)
    ensures |r| <= |ops|
    ensures forall k :: 0 <= k < |r| ==> Edit(r[k]) in ops
  {
    if ops == [] then []
    else
      match ops[0]
      case Op(_) => EditsOf(ops[1..])
      case Edit(e) => [e] + EditsOf(ops[1..])
  }

  /** `workspce_edits`. */
  function WorkspaceEdits(edit: WorkspaceEdit): (r: Option<map<Url, seq<TextEdit>>>)
    ensures edit.changes.Some? ==> r == edit.changes
    ensures r.None? <==> edit.changes.None? && edit.documentChanges.None?
  {
    if edit.changes.Some? then edit.changes
    else
      match edit.documentChanges
      case None => None
      case Some(Edits(docs)) => Some(Collect(docs))
      case Some(Operations(ops)) => Some(Collect(EditsOf(ops)))
  }

  /** The URIs that get an entry are exactly those of the documents. */
  lemma {:induction false} CollectDomain(docs: seq<TextDocumentEdit>, u: Url)
    ensures u in Collect(docs) <==> exists k :: 0 <= k < |docs| && docs[k].uri == u
    decreases |docs|
  {
    if docs != [] {
      var init := docs[..|docs| - 1];
      CollectDomain(init, u);
      if u in Collect(init) {
        var k :| 0 <= k < |init| && init[k].uri == u;
        assert docs[k].uri == u;
      }
      if exists k :: 0 <= k < |docs| && docs[k].uri == u {
        var k :| 0 <= k < |docs| && docs[k].uri == u;
        if k < |init| {
          assert init[k].uri == u;
        }
      }
    }
  }

  /**
   * Each URI maps to the edits, in order and unwrapped, of the LAST
   * document with that URI.
   */
  lemma {:induction false} CollectLast(docs: seq<TextDocumentEdit>, k: nat)
    requires k < |docs|
    requires forall j :: k < j < |docs| ==> docs[j].uri != docs[k].uri
    ensures docs[k].uri in Collect(docs)
    ensures Collect(docs)[docs[k].uri] == UnwrapAll(docs[k].edits)
    decreases |docs|
  {
    var init := docs[..|docs| - 1];
    if k < |init| {
      forall j | k < j < |init| ensures init[j].uri != init[k].uri {
        assert init[j] == docs[j];
      }
      CollectLast(init, k);
    }
  }

  /** Two documents with the same URI: the later one's edits win. */
  lemma DuplicateUriOverwrites(a: TextDocumentEdit, b: TextDocumentEdit)
    requires a.uri == b.uri
    ensures Collect([a, b]) == map[b.uri := UnwrapAll(b.edits)]
  {
    assert [a, b][..1] == [a];
    assert [a][..0] == [];
    assert Collect([a]) == map[a.uri := UnwrapAll(a.edits)];
    assert Collect([a, b]) == map[a.uri := UnwrapAll(a.edits)][b.uri := UnwrapAll(b.edits)];
  }

  lemma {:induction false} EditsOfAppend(xs: seq<DocumentChangeOperation>, ys: seq<DocumentChangeOperation>)
    ensures EditsOf(xs + ys) == EditsOf(xs) + EditsOf(ys)
    decreases |xs|
  {
    if xs != [] {
      assert (xs + ys)[1..] == xs[1..] + ys;
      EditsOfAppend(xs[1..], ys);
    } else {
      assert xs + ys == ys;
    }
  }

  /**
   * In the `Operations` variant a create, rename or delete operation
   * contributes nothing: removing it leaves the result as it was.
   */
  lemma OperationIgnored(before: seq<DocumentChangeOperation>, op: ResourceOp, after: seq<DocumentChangeOperation>)
    ensures WorkspaceEdits(WorkspaceEdit(None, Some(Operations(before + [Op(op)] + after))))
         == WorkspaceEdits(WorkspaceEdit(None, Some(Operations(before + after))))
  {
    EditsOfAppend(before + [Op(op)], after);
    EditsOfAppend(before, [Op(op)]);
    EditsOfAppend(before, after);
    assert EditsOf([Op(op)]) == [];
    assert EditsOf(before) + [] == EditsOf(before);
  }

  /** Each document edit as an `Edit` operation, in order. */
  function EditOps(docs: seq<TextDocumentEdit>): (ops: seq<DocumentChangeOperation>)
    ensures |ops| == |docs|
    ensures forall k :: 0 <= k < |docs| ==> ops[k] == Edit(docs[k])
  {
    if docs == [] then [] else [Edit(docs[0])] + EditOps(docs[1..])
  }

  /**
   * In the `Operations` variant the `Edit` entries behave as the `Edits`
   * variant does: the operations with only edits give what those edits give.
   */
  lemma {:induction false} OperationsOfEdits(docs: seq<TextDocumentEdit>)
    ensures EditsOf(EditOps(docs)) == docs
    ensures WorkspaceEdits(WorkspaceEdit(None, Some(Operations(EditOps(docs)))))
         == WorkspaceEdits(WorkspaceEdit(None, Some(Edits(docs))))
    decreases |docs|
  {
    if docs != [] {
      var ops := EditOps(docs);
      assert ops[0] == Edit(docs[0]) && ops[1..] == EditOps(docs[1..]);
      OperationsOfEdits(docs[1..]);
      assert [docs[0]] + docs[1..] == docs;
    }
  }

  /**
   * What `select` applies from the highlighted action: for a code action
   * with an edit whose flattened form has an entry for the active
   * document's URI, that entry's edits; nothing for a bare command.  The
   * index is not checked against the list's length, so it must be in range.
   */
  function SelectEdits(actions: seq<CodeActionOrCommand>, current: nat, uri: Url): (r: Option<seq<TextEdit>>)
    requires current < |actions|
    ensures r.Some? <==>
      && actions[current].CodeActionItem?
      && actions[current].edit.Some?
      && WorkspaceEdits(actions[current].edit.value).Some?
      && uri in WorkspaceEdits(actions[current].edit.value).value
    ensures r.Some? ==> r.value == WorkspaceEdits(actions[current].edit.value).value[uri]
  {
    match actions[current]
    case CommandItem(_) => None
    case CodeActionItem(_, edit) =>
      if edit.None? then None
      else
        match WorkspaceEdits(edit.value)
        case None => None
        case Some(edits) => if uri in edits then Some(edits[uri]) else None
  }

  /**
   * A code action whose edit carries `changes` applies exactly the
   * changes listed for the document, whatever its `document_changes` say.
   */
  lemma SelectUsesChanges(actions: seq<CodeActionOrCommand>, current: nat, uri: Url,
                          changes: map<Url, seq<TextEdit>>)
    requires current < |actions|
    requires actions[current].CodeActionItem? && actions[current].edit.Some?
    requires actions[current].edit.value.changes == Some(changes)
    ensures SelectEdits(actions, current, uri) == if uri in changes then Some(changes[uri]) else None
  {
  }
}
