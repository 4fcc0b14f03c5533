/**
 * The model behind the database explorer dialog: a tree of schema and
 * table nodes under a root, the selected node, and the depth-first search
 * `findBy` that locates a schema, or a table within a schema.
 *
 * Nodes are values here; the tree's list entries may be null (`None`). The
 * property-change event `setSelectedNode` fires is not part of this model.
 */
module DatabaseExplorer {
  import opened JavaLang

  /** A node of the explorer tree: its name, its schema (may be null), its kind and its children. */
  datatype Node = Node(name: string, schema: Option<string>, isSchema: bool, isTable: bool,
                       children: seq<Option<Node>>)

  /** `findBy` looks for a schema when the table is null or empty. */
  predicate LookingForSchema(table: Option<string>) {
    IsEmpty(table)
  }

  /**
   * The node `findBy` is after: a schema node with the schema's name; or a
   * table node with the table's name whose schema equals the requested one
   * (a null schema matching only a null request).
   */
  predicate Matches(n: Node, schema: Option<string>, table: Option<string>) {
    if LookingForSchema(table) then n.isSchema && schema == Some(n.name)
    else n.isTable && table == Some(n.name) && n.schema == schema
  }

  /**
   * `drillDown` on an iterator over `parent`'s children that is at position
   * `from`: walk the rest of the list in order; a node that matches is
   * returned at once, any other node is searched below before its next
   * sibling; null entries are skipped; when nothing matches the result is
   * null.
   */
  function DrillDown(parent: Node, from: nat, schema: Option<string>, table: Option<string>): (r: Option<Node>)
    requires from <= |parent.children|
    ensures r.Some? ==> Matches(r.value, schema, table)
    decreases parent, |parent.children| - from
  {
    if from == |parent.children| then None
    else match parent.children[from]
      case None => DrillDown(parent, from + 1, schema, table)
      case Some(n) =>
        if Matches(n, schema, table) then Some(n)
        else
          assert parent.children[from] in parent.children;
          var below := DrillDown(n, 0, schema, table);
          if below.Some? then below else DrillDown(parent, from + 1, schema, table)
  }

  /**
   * The non-null children of `parent` from position `from` on, each followed
   * by its own pre-order listing: every node before its descendants, siblings
   * in list order.
   */
  function PreOrder(parent: Node, from: nat): (r: seq<Node>)
    requires from <= |parent.children|
    decreases parent, |parent.children| - from
  {
    if from == |parent.children| then []
    else match parent.children[from]
      case None => PreOrder(parent, from + 1)
      case Some(n) =>
        assert parent.children[from] in parent.children;
        [n] + PreOrder(n, 0) + PreOrder(parent, from + 1)
  }

  /** The first node of the list that matches, if any. */
  function FirstMatch(ns: seq<Node>, schema: Option<string>, table: Option<string>): (r: Option<Node>)
    ensures r.Some? ==> r.value in ns && Matches(r.value, schema, table)
    ensures r.None? <==> forall i :: 0 <= i < |ns| ==> !Matches(ns[i], schema, table)
  {
    if ns == [] then None
    else if Matches(ns[0], schema, table) then Some(ns[0])
    else FirstMatch(ns[1..], schema, table)
  }

  lemma {:induction false} FirstMatchAppend(a: seq<Node>, b: seq<Node>, schema: Option<string>, table: Option<string>)
    ensures FirstMatch(a + b, schema, table) ==
            if FirstMatch(a, schema, table).Some? then FirstMatch(a, schema, table) else FirstMatch(b, schema, table)
    decreases |a|
  {
    if a != [] {
      assert (a + b)[1..] == a[1..] + b;
      FirstMatchAppend(a[1..], b, schema, table);
    } else {
      assert a + b == b;
    }
  }

  /**
   * `drillDown` is a depth-first pre-order search: it returns the first
   * matching node of the pre-order listing, and null exactly when no node
   * in the tree matches.
   */
  lemma {:induction false} DrillDownIsFirstInPreOrder(parent: Node, from: nat, schema: Option<string>, table: Option<string>)
    requires from <= |parent.children|
    ensures DrillDown(parent, from, schema, table) == FirstMatch(PreOrder(parent, from), schema, table)
    decreases parent, |parent.children| - from
  {
    if from < |parent.children| {
      DrillDownIsFirstInPreOrder(parent, from + 1, schema, table);
      match parent.children[from]
      case None =>
      case Some(n) =>
        assert parent.children[from] in parent.children;
        DrillDownIsFirstInPreOrder(n, 0, schema, table);
        FirstMatchAppend([n] + PreOrder(n, 0), PreOrder(parent, from + 1), schema, table);
        FirstMatchAppend([n], PreOrder(n, 0), schema, table);
    }
  }

  class DatabaseExplorerModel {
    var database: Node   // the root; its own name and flags are never looked at
    var selectedNode: Option<Node>

    /** A model with an empty root and nothing selected. */
    constructor ()
      ensures database.children == [] && selectedNode.None?
    {
      database := Node("", None, false, false, []);
      selectedNode := None;
    }

    /** `findBy`: search the whole tree below the root. */
    function FindBy(schema: Option<string>, table: Option<string>): (r: Option<Node>)
      reads this
      ensures r.Some? ==> Matches(r.value, schema, table) && r.value in PreOrder(database, 0)
      ensures r.None? <==> forall i :: 0 <= i < |PreOrder(database, 0)| ==> !Matches(PreOrder(database, 0)[i], schema, table)
    {
      DrillDownIsFirstInPreOrder(database, 0, schema, table);
      DrillDown(database, 0, schema, table)
    }

    /** `getTable`: the selected node's name when it is a table, else null. */
    function GetTable(): (r: Option<string>)
      reads this
      ensures r.Some? <==> selectedNode.Some? && selectedNode.value.isTable
      ensures r.Some? ==> r.value == selectedNode.value.name
    {
      if selectedNode.Some? && selectedNode.value.isTable then Some(selectedNode.value.name) else None
    }

    /** `getSchema`: the selected node's schema, or null when nothing is selected. */
    function GetSchema(): (r: Option<string>)
      reads this
      ensures selectedNode.None? ==> r.None?
      ensures selectedNode.Some? ==> r == selectedNode.value.schema
    {
      if selectedNode.Some? then selectedNode.value.schema else None
    }

    /** `setSelectedNode`: replace the selection. */
    method SetSelectedNode(node: Option<Node>)
      modifies this`selectedNode
      ensures selectedNode == node && database == old(database)
    {
      selectedNode := node;
    }

    /** `setDatabase`: replace the tree; the selection is left as it was. */
    method SetDatabase(root: Node)
      modifies this`database
      ensures database == root
    {
      database := root;
    }
  }
}
