/** The builder's session state, the module-level `fields` array and
    `selectedId`, and the event handlers that change them. Rendering is left
    out: each handler keeps only the state change it performs. */
module Session {
  import opened Fields
  import opened FieldList

  class FormSession {
    /** The fields, in display order. */
    var fields: seq<Field>
    /** The selected field's id; it need not name a field that exists. */
    var selectedId: Option<Id>
    /** Every id handed out in this session, deleted fields' included. */
    ghost var issued: set<Id>

    /** Ids are unique and were all handed out here, and every field keeps
        the type-dependent properties of its type. */
    ghost predicate Valid()
      reads this
    {
      UniqueIds(fields)
      && (forall f :: f in fields ==> f.id in issued)
      && (forall f :: f in fields ==> WellFormed(f))
    }

    /** The start of a session: no fields and no selection. */
    constructor ()
      ensures Valid()
      ensures fields == [] && selectedId == None && issued == {}
    {
      fields := [];
      selectedId := None;
      issued := {};
    }

    /** selectField: records the id without checking that a field has it. */
    method Select(id: Id)
      requires Valid()
      modifies this
      ensures Valid()
      ensures fields == old(fields) && issued == old(issued)
      ensures selectedId == Some(id)
    {
      selectedId := Some(id);
    }

    /** The document-level click handler: a click outside both the canvas
        and the inspector clears the selection. */
    method ClickOutside(inCanvas: bool, inInspector: bool)
      requires Valid()
      modifies this
      ensures Valid()
      ensures fields == old(fields) && issued == old(issued)
      ensures selectedId == if !inCanvas && !inInspector then None else old(selectedId)
    {
      if !inCanvas && !inInspector {
        selectedId := None;
      }
    }

    /** Adding a field: createField with the fresh id `newId`, push, then
        select the new field. */
    method Add(kind: string, newId: Id)
      requires Valid() && newId !in issued
      modifies this
      ensures Valid()
      ensures fields == old(fields) + [CreateField(newId, kind)]
      ensures selectedId == Some(newId)
      ensures issued == old(issued) + {newId}
    {
      var f := CreateField(newId, kind);
      AppendUnique(fields, f);
      fields := fields + [f];
      issued := issued + {newId};
      Select(newId);
    }

    /** The canvas drop handler: a non-empty dropped type adds a field. */
    method Drop(payload: string, newId: Id)
      requires Valid() && newId !in issued
      modifies this
      ensures Valid()
      ensures payload == "" ==> fields == old(fields) && selectedId == old(selectedId)
                                && issued == old(issued)
      ensures payload != "" ==> fields == old(fields) + [CreateField(newId, payload)]
                                && selectedId == Some(newId)
                                && issued == old(issued) + {newId}
    {
      if payload != "" {
        Add(payload, newId);
      }
    }

    /** A click on a field-library item as the page dispatches it: the
        item's own handler adds and selects the field, then the click
        bubbles to the document handler, which finds its target outside the
        canvas and the inspector and clears the selection again. */
    method LibraryClick(kind: string, newId: Id)
      requires Valid() && newId !in issued
      modifies this
      ensures Valid()
      ensures fields == old(fields) + [CreateField(newId, kind)]
      ensures selectedId == None
      ensures issued == old(issued) + {newId}
    {
      Add(kind, newId);
      ClickOutside(false, false);
    }

    /** moveField(id, dir) */
    method Move(id: Id, dir: int)
      requires Valid()
      modifies this
      ensures Valid()
      ensures fields == Moved(old(fields), id, dir)
      ensures selectedId == old(selectedId) && issued == old(issued)
    {
      MovedUnique(fields, id, dir);
      MovedIsPermutation(fields, id, dir);
      assert forall f :: f in Moved(fields, id, dir) ==> f in multiset(fields);
      fields := Moved(fields, id, dir);
    }

    /** deleteField(id): the filter, and the selection cleared exactly when
        it held `id`. */
    method Delete(id: Id)
      requires Valid()
      modifies this
      ensures Valid()
      ensures fields == Without(old(fields), id)
      ensures selectedId == if old(selectedId) == Some(id) then None else old(selectedId)
      ensures issued == old(issued)
    {
      WithoutUnique(fields, id);
      fields := Without(fields, id);
      if selectedId == Some(id) {
        selectedId := None;
      }
    }

    /** duplicateField(id) with the fresh id `newId`. */
    method Duplicate(id: Id, newId: Id)
      requires Valid() && newId !in issued
      modifies this
      ensures Valid()
      ensures fields == Duplicated(old(fields), id, newId)
      ensures selectedId == old(selectedId)
      ensures issued == if HasId(old(fields), id) then old(issued) + {newId} else old(issued)
    {
      var i := IndexOf(fields, id);
      if i >= 0 {
        assert fields[i] in fields;
        var copy := Copy(fields[i], newId);
        AppendUnique(fields, copy);
        fields := fields + [copy];
        issued := issued + {newId};
      }
    }

    /** An inspector edit of the field with `id`, through one of the
        editors the inspector shows for that field's type. */
    method Edit(id: Id, p: Patch)
      requires Valid()
      requires forall k :: 0 <= k < |fields| && fields[k].id == id ==> Offered(fields[k].kind, p)
      modifies this
      ensures Valid()
      ensures fields == Updated(old(fields), id, p)
      ensures selectedId == old(selectedId) && issued == old(issued)
    {
      var r := Updated(fields, id, p);
      forall f | f in r ensures f.id in issued && WellFormed(f) {
        var k :| 0 <= k < |r| && r[k] == f;
        assert fields[k] in fields;
      }
      fields := r;
    }
  }

  /** Clicking the "text" library item on a fresh page: one field, and no
      selection left once the click has reached the document handler. */
  method LibraryClickScenario() returns (count: nat, selection: Option<Id>)
    ensures count == 1 && selection == None
  {
    var session := new FormSession();
    session.LibraryClick("text", "f1");
    count, selection := |session.fields|, session.selectedId;
  }

  /** Dropping a "text" field on a fresh page: one field, selected. */
  method DropScenario() returns (count: nat, selection: Option<Id>)
    ensures count == 1 && selection == Some("f1")
  {
    var session := new FormSession();
    session.Drop("text", "f1");
    count, selection := |session.fields|, session.selectedId;
  }
}
