/**
 * The records that the reconciliation engine works on: the local entity
 * (one row of the Workflows table) and the remote description of a workflow,
 * with the table's schema limits and the id-level views of a list of records.
 */
module Domain {

  /** The range of a C# `int`, the type of every workflow id. */
  type Int32 = x: int | -0x8000_0000 <= x < 0x8000_0000

  /** A local workflow: one row of the Workflows table, keyed by `workflowId`. */
  datatype Workflow = Workflow(
    workflowId: Int32,
    workflowName: string,
    isActive: bool,
    multiExecBehavior: string)

  /** A workflow as the remote API lists it. */
  datatype WorkflowDto = WorkflowDto(
    id: Int32,
    name: string,
    isActive: bool,
    multiExecBehavior: string)

  /** Column limits of the Workflows table, in UTF-16 code units (`nvarchar`, C# `string.Length`). */
  const NameMaxLength: nat := 255
  const MultiExecBehaviorMaxLength: nat := 100

  /** The UTF-16 code units of one character: two for a character outside the Basic Multilingual Plane. */
  function Utf16Units(c: char): nat {
    if c as int < 0x1_0000 then 1 else 2
  }

  /** The length of a string as C# and an `nvarchar` column count it. */
  function Utf16Length(s: string): nat {
    if s == [] then 0 else Utf16Units(s[0]) + Utf16Length(s[1..])
  }

  /**
   * A string counts one unit per character, two for each character outside the
   * Basic Multilingual Plane: exactly its character count when it has none of
   * those, exactly twice that when it has only those.
   */
  lemma {:induction false} Utf16LengthBounds(s: string)
    ensures |s| <= Utf16Length(s) <= 2 * |s|
    ensures Utf16Length(s) == |s| <==> forall i :: 0 <= i < |s| ==> s[i] as int < 0x1_0000
    ensures Utf16Length(s) == 2 * |s| <==> forall i :: 0 <= i < |s| ==> s[i] as int >= 0x1_0000
  {
    if s != [] {
      var rest := s[1..];
      Utf16LengthBounds(rest);
      assert forall i :: 1 <= i < |s| ==> s[i] == rest[i - 1];
    }
  }

  /** Two values the table accepts in the name and multiExecBehavior columns. */
  predicate FitsColumns(name: string, multiExecBehavior: string) {
    Utf16Length(name) <= NameMaxLength && Utf16Length(multiExecBehavior) <= MultiExecBehaviorMaxLength
  }

  /**
   * A row the table accepts. The name column is required, which means NOT NULL;
   * a Dafny string is never null, so only the two length limits remain.
   */
  predicate FitsSchema(w: Workflow) {
    FitsColumns(w.workflowName, w.multiExecBehavior)
  }

  /** A remote record whose values the table would accept. */
  predicate DtoFitsSchema(d: WorkflowDto) {
    FitsColumns(d.name, d.multiExecBehavior)
  }

  /** 255 characters fit in the name column when they are all in the Basic Multilingual Plane, not when they are all outside it. */
  lemma NameColumnUnits(name: string)
    requires |name| == 255
    ensures (forall i :: 0 <= i < |name| ==> name[i] as int < 0x1_0000) ==> FitsColumns(name, "")
    ensures (forall i :: 0 <= i < |name| ==> name[i] as int >= 0x1_0000) ==> !FitsColumns(name, "")
  {
    Utf16LengthBounds(name);
  }

  /** Every entry is stored under its own id (the id is the key, never generated). */
  predicate KeyedById(m: map<int, Workflow>) {
    forall k :: k in m ==> m[k].workflowId == k
  }

  /** The invariant of the committed table: keyed by id and within the schema. */
  predicate ValidTable(rows: map<int, Workflow>) {
    KeyedById(rows) && forall k :: k in rows ==> FitsSchema(rows[k])
  }

  /** The new entity built for a remote record: all four fields copied one to one. */
  function FromDto(d: WorkflowDto): (w: Workflow)
    ensures w.workflowId == d.id
    ensures w.workflowName == d.name && w.isActive == d.isActive && w.multiExecBehavior == d.multiExecBehavior
  {
    Workflow(d.id, d.name, d.isActive, d.multiExecBehavior)
  }

  /** The new entity fits the schema exactly when the remote record does. */
  lemma FromDtoFits(d: WorkflowDto)
    ensures FitsSchema(FromDto(d)) <==> DtoFitsSchema(d)
  {
  }

  /** The set of ids of a list of local records. */
  function WorkflowIds(ws: seq<Workflow>): set<int> {
    set w | w in ws :: w.workflowId
  }

  /** The set of ids of a remote snapshot. */
  function RemoteIds(ds: seq<WorkflowDto>): set<int> {
    set d | d in ds :: d.id
  }

  predicate DistinctIds(ws: seq<Workflow>) {
    forall i, j :: 0 <= i < j < |ws| ==> ws[i].workflowId != ws[j].workflowId
  }

  predicate DistinctRemoteIds(ds: seq<WorkflowDto>) {
    forall i, j :: 0 <= i < j < |ds| ==> ds[i].id != ds[j].id
  }

  /** `ws` lists the entries of `m`, each exactly once, in some order. */
  predicate IsListingOf(ws: seq<Workflow>, m: map<int, Workflow>) {
    && DistinctIds(ws)
    && WorkflowIds(ws) == m.Keys
    && forall w :: w in ws ==> w.workflowId in m && m[w.workflowId] == w
  }

  /** The records of `ws` by id; where an id repeats, the later record wins. */
  function TableOf(ws: seq<Workflow>): map<int, Workflow> {
    if ws == [] then map[] else TableOf(ws[..|ws| - 1])[ws[|ws| - 1].workflowId := ws[|ws| - 1]]
  }

  /** Appending a record enters it last, over any earlier record with its id. */
  lemma TableOfSnoc(ws: seq<Workflow>, w: Workflow)
    ensures TableOf(ws + [w]) == TableOf(ws)[w.workflowId := w]
  {
    assert (ws + [w])[..|ws + [w]| - 1] == ws;
  }

  /** Updating the right operand of a map union updates the union. */
  lemma UnionUpdate(a: map<int, Workflow>, b: map<int, Workflow>, k: int, w: Workflow)
    ensures a + b[k := w] == (a + b)[k := w]
  {
  }

  lemma {:induction false} TableOfKeys(ws: seq<Workflow>)
    ensures TableOf(ws).Keys == WorkflowIds(ws)
    ensures KeyedById(TableOf(ws))
  {
    if ws != [] {
      var init, last := ws[..|ws| - 1], ws[|ws| - 1];
      TableOfKeys(init);
      assert ws == init + [last];
      assert WorkflowIds(ws) == WorkflowIds(init) + {last.workflowId};
    }
  }

  /** With distinct ids, the table of a list holds each of its records under its id. */
  lemma {:induction false} TableOfDistinct(ws: seq<Workflow>)
    requires DistinctIds(ws)
    ensures TableOf(ws).Keys == WorkflowIds(ws)
    ensures forall w :: w in ws ==> TableOf(ws)[w.workflowId] == w
  {
    TableOfKeys(ws);
    if ws != [] {
      var init, last := ws[..|ws| - 1], ws[|ws| - 1];
      DistinctIdsInit(ws);
      TableOfDistinct(init);
      assert ws == init + [last];
      forall w | w in ws ensures TableOf(ws)[w.workflowId] == w {
        if w != last {
          assert w in init;
        }
      }
    }
  }

  /** Distinct ids make the id set exactly as large as the list. */
  lemma {:induction false} DistinctIdsCardinality(ws: seq<Workflow>)
    requires DistinctIds(ws)
    ensures |WorkflowIds(ws)| == |ws|
  {
    if ws != [] {
      var rest := ws[1..];
      DistinctIdsCardinality(rest);
      assert ws == [ws[0]] + rest;
      assert WorkflowIds(ws) == {ws[0].workflowId} + WorkflowIds(rest);
      assert ws[0].workflowId !in WorkflowIds(rest);
    }
  }

  /** Distinct remote ids make the remote id set exactly as large as the snapshot. */
  lemma {:induction false} DistinctRemoteIdsCardinality(ds: seq<WorkflowDto>)
    requires DistinctRemoteIds(ds)
    ensures |RemoteIds(ds)| == |ds|
  {
    if ds != [] {
      var rest := ds[1..];
      DistinctRemoteIdsCardinality(rest);
      assert ds == [ds[0]] + rest;
      assert RemoteIds(ds) == {ds[0].id} + RemoteIds(rest);
      assert ds[0].id !in RemoteIds(rest);
    }
  }

  /** Splitting off the last record of a list with distinct ids. */
  lemma DistinctIdsInit(ws: seq<Workflow>)
    requires DistinctIds(ws) && ws != []
    ensures DistinctIds(ws[..|ws| - 1])
    ensures ws[|ws| - 1].workflowId !in WorkflowIds(ws[..|ws| - 1])
    ensures WorkflowIds(ws) == WorkflowIds(ws[..|ws| - 1]) + {ws[|ws| - 1].workflowId}
  {
    var init, last := ws[..|ws| - 1], ws[|ws| - 1];
    assert ws == init + [last];
  }

  /** A list without ids is empty. */
  lemma NoIdsNoRecords(ws: seq<Workflow>)
    ensures WorkflowIds(ws) == {} ==> ws == []
  {
    if ws != [] {
      assert ws[0].workflowId in WorkflowIds(ws);
    }
  }

  /** Putting a record with a new id in front of a list with distinct ids. */
  lemma DistinctIdsCons(w: Workflow, ws: seq<Workflow>)
    requires DistinctIds(ws) && w.workflowId !in WorkflowIds(ws)
    ensures DistinctIds([w] + ws)
  {
    var all := [w] + ws;
    forall i, j | 0 <= i < j < |all| ensures all[i].workflowId != all[j].workflowId {
      assert all[j] == ws[j - 1];
      if i > 0 {
        assert all[i] == ws[i - 1];
      }
    }
  }

  /** Splitting off the first record of a list with distinct ids. */
  lemma DistinctIdsTail(ws: seq<Workflow>)
    requires DistinctIds(ws) && ws != []
    ensures DistinctIds(ws[1..])
    ensures ws[0].workflowId !in WorkflowIds(ws[1..])
    ensures WorkflowIds(ws) == {ws[0].workflowId} + WorkflowIds(ws[1..])
  {
    var rest := ws[1..];
    forall i, j | 0 <= i < j < |rest| ensures rest[i].workflowId != rest[j].workflowId {
      assert rest[i] == ws[i + 1] && rest[j] == ws[j + 1];
    }
    assert ws == [ws[0]] + rest;
  }

  /** Entering the rows of a distinct sequence from the front builds the same table as TableOf. */
  lemma TableOfFront(rows: map<int, Workflow>, ws: seq<Workflow>)
    requires DistinctIds(ws) && ws != []
    ensures rows[ws[0].workflowId := ws[0]] + TableOf(ws[1..]) == rows + TableOf(ws)
  {
    DistinctIdsTail(ws);
    TableOfKeys(ws);
    TableOfKeys(ws[1..]);
    TableOfTail(ws);
    FrontUnion(rows, TableOf(ws), TableOf(ws[1..]), ws[0].workflowId, ws[0]);
  }

  /** With distinct ids, the table of a list holds its first record and agrees with the table of the rest. */
  lemma TableOfTail(ws: seq<Workflow>)
    requires DistinctIds(ws) && ws != []
    ensures ws[0].workflowId in TableOf(ws) && TableOf(ws)[ws[0].workflowId] == ws[0]
    ensures forall k :: k in TableOf(ws[1..]) ==> k in TableOf(ws) && TableOf(ws)[k] == TableOf(ws[1..])[k]
  {
    var rest := ws[1..];
    DistinctIdsTail(ws);
    TableOfDistinct(ws);
    TableOfDistinct(rest);
    assert ws[0] in ws;
    forall k | k in TableOf(rest) ensures k in TableOf(ws) && TableOf(ws)[k] == TableOf(rest)[k] {
      var w :| w in rest && w.workflowId == k;
      assert w in ws;
    }
  }

  /** Entering `w` under `k` before the rest of a table is the table that already holds it. */
  lemma FrontUnion(rows: map<int, Workflow>, t: map<int, Workflow>, tail: map<int, Workflow>, k: int, w: Workflow)
    requires t.Keys == tail.Keys + {k} && k !in tail && t[k] == w
    requires forall j :: j in tail ==> t[j] == tail[j]
    ensures rows[k := w] + tail == rows + t
  {
    var lhs, rhs := rows[k := w] + tail, rows + t;
    assert lhs.Keys == rhs.Keys;
    forall j | j in rhs ensures lhs[j] == rhs[j] {
      if j in tail {
        assert lhs[j] == tail[j];
      } else if j == k {
        assert lhs[j] == w;
      }
    }
  }

}
