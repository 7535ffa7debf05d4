/** The About card: the rows it lists for an entity, in their fixed order. */
module AboutCard {
  import opened Wrappers
  import opened Text
  import opened Seqs

  /** A relation of the entity, with its target ref already parsed. */
  datatype Relation = Relation(relType: string, kind: string, namespace: string, name: string)

  const OwnedBy: string := "ownedBy"
  const PartOf: string := "partOf"

  /**
   * The entity's relations of one type, optionally only those whose target kind matches
   * case-insensitively: the part of the catalog helper the card relies on.
   */
  function RelationsOf(rels: seq<Relation>, relType: string, kind: Option<string>): (r: seq<Relation>)
    ensures forall x :: x in r <==>
      (x in rels && x.relType == relType && (kind.None? || Lower(x.kind) == Lower(kind.value)))
  {
    Filter(rels, (x: Relation) => x.relType == relType && (kind.None? || Lower(x.kind) == Lower(kind.value)))
  }

  /** The fields of the entity the card reads; absent tags and labels are empty. */
  datatype About = About(
    description: Option<string>,
    entityType: Option<string>,
    lifecycle: Option<string>,
    labels: seq<(string, string)>,
    tags: seq<string>,
    relations: seq<Relation>)

  datatype RowLabel = Description | Owner | System | Domain | Type | Lifecycle | Labels | Tags

  /** The position of each label in the card's fixed order. */
  function Ord(l: RowLabel): nat {
    match l
    case Description => 0
    case Owner => 1
    case System => 2
    case Domain => 3
    case Type => 4
    case Lifecycle => 5
    case Labels => 6
    case Tags => 7
  }

  datatype RowValue = Text(text: string) | Links(refs: seq<Relation>) | Pairs(pairs: seq<(string, string)>) | Badges(tags: seq<string>)

  datatype Row = Row(heading: RowLabel, value: RowValue)

  /** A row the card may push, and whether its condition holds. */
  datatype Candidate = Candidate(show: bool, row: Row)

  /** The rows pushed, in push order: those candidates whose condition holds. */
  function Pushed(cs: seq<Candidate>): (rows: seq<Row>)
    ensures |rows| <= |cs|
    ensures forall r :: r in rows <==> exists k :: 0 <= k < |cs| && cs[k].show && cs[k].row == r
  {
    if |cs| == 0 then []
    else
      var rest := Pushed(cs[1..]);
      assert forall k :: 1 <= k < |cs| ==> cs[k] == cs[1..][k - 1];
      (if cs[0].show then [cs[0].row] else []) + rest
  }

  predicate Ascending(rows: seq<Row>) {
    forall i, j :: 0 <= i < j < |rows| ==> Ord(rows[i].heading) < Ord(rows[j].heading)
  }

  /** Pushing only some of an ascending list of candidates keeps the rows ascending. */
  lemma {:induction false} PushedAscending(cs: seq<Candidate>)
    requires forall i, j :: 0 <= i < j < |cs| ==> Ord(cs[i].row.heading) < Ord(cs[j].row.heading)
    ensures Ascending(Pushed(cs))
  {
    if |cs| > 0 {
      PushedAscending(cs[1..]);
      PushedAfterHead(cs);
      if cs[0].show {
        assert Pushed(cs) == [cs[0].row] + Pushed(cs[1..]);
        ConsAscending(cs[0].row, Pushed(cs[1..]));
      } else {
        assert Pushed(cs) == Pushed(cs[1..]);
      }
    }
  }

  /** Every row pushed after the first candidate ranks above it. */
  lemma PushedAfterHead(cs: seq<Candidate>)
    requires |cs| > 0
    requires forall i, j :: 0 <= i < j < |cs| ==> Ord(cs[i].row.heading) < Ord(cs[j].row.heading)
    ensures forall r :: r in Pushed(cs[1..]) ==> Ord(cs[0].row.heading) < Ord(r.heading)
  {
    forall r | r in Pushed(cs[1..]) ensures Ord(cs[0].row.heading) < Ord(r.heading) {
      var k :| 0 <= k < |cs[1..]| && cs[1..][k].show && cs[1..][k].row == r;
      assert cs[1..][k] == cs[k + 1];
    }
  }

  /** A row ranked below every row of an ascending list can go in front of it. */
  lemma ConsAscending(row: Row, rest: seq<Row>)
    requires Ascending(rest)
    requires forall r :: r in rest ==> Ord(row.heading) < Ord(r.heading)
    ensures Ascending([row] + rest)
  {
    var rows := [row] + rest;
    forall i, j | 0 <= i < j < |rows| ensures Ord(rows[i].heading) < Ord(rows[j].heading) {
      if i == 0 {
        assert rows[j] == rest[j - 1] && rest[j - 1] in rest;
      } else {
        assert rows[i] == rest[i - 1] && rows[j] == rest[j - 1];
      }
    }
  }

  function DescriptionText(a: About): (text: string)
    ensures text != ""
  {
    OrElse(a.description, "No description")
  }

  function Owners(a: About): seq<Relation> { RelationsOf(a.relations, OwnedBy, None) }
  function Systems(a: About): seq<Relation> { RelationsOf(a.relations, PartOf, Some("system")) }
  function Domains(a: About): seq<Relation> { RelationsOf(a.relations, PartOf, Some("domain")) }

  /** The eight candidate rows in push order, each with the condition the card tests. */
  function Candidates(a: About): (cs: seq<Candidate>)
    ensures |cs| == 8
    ensures forall k :: 0 <= k < 8 ==> Ord(cs[k].row.heading) == k
  {
    [ Candidate(DescriptionText(a) != "", Row(Description, Text(DescriptionText(a)))),
      Candidate(|Owners(a)| > 0, Row(Owner, Links(Owners(a)))),
      Candidate(|Systems(a)| > 0, Row(System, Links(Systems(a)))),
      Candidate(|Domains(a)| > 0, Row(Domain, Links(Domains(a)))),
      Candidate(Truthy(a.entityType), Row(Type, Text(a.entityType.GetOr("")))),
      Candidate(Truthy(a.lifecycle), Row(Lifecycle, Text(a.lifecycle.GetOr("")))),
      Candidate(|a.labels| > 0, Row(Labels, Pairs(a.labels))),
      Candidate(|a.tags| > 0, Row(Tags, Badges(a.tags))) ]
  }

  /** The card's rows. */
  function Rows(a: About): (rows: seq<Row>)
    ensures 1 <= |rows| <= 8
    ensures rows[0] == Row(Description, Text(DescriptionText(a)))
  {
    var cs := Candidates(a);
    assert Pushed(cs) == [cs[0].row] + Pushed(cs[1..]);
    Pushed(cs)
  }

  function LabelsOf(rows: seq<Row>): (ls: seq<RowLabel>)
    ensures |ls| == |rows|
    ensures forall i :: 0 <= i < |rows| ==> ls[i] == rows[i].heading
  {
    seq(|rows|, i requires 0 <= i < |rows| => rows[i].heading)
  }

  /** When each row is listed. */
  predicate RowCondition(a: About, l: RowLabel) {
    match l
    case Description => true
    case Owner => |Owners(a)| > 0
    case System => |Systems(a)| > 0
    case Domain => |Domains(a)| > 0
    case Type => Truthy(a.entityType)
    case Lifecycle => Truthy(a.lifecycle)
    case Labels => |a.labels| > 0
    case Tags => |a.tags| > 0
  }

  /** Rows appear in the fixed order, each label at most once. */
  lemma RowsInFixedOrder(a: About)
    ensures Ascending(Rows(a))
    ensures NoDups(LabelsOf(Rows(a)))
  {
    PushedAscending(Candidates(a));
  }

  /** A row is listed exactly when its condition holds; Description always is, and comes first. */
  lemma RowPresentIff(a: About, l: RowLabel)
    ensures l in LabelsOf(Rows(a)) <==> RowCondition(a, l)
    ensures |Rows(a)| > 0 && Rows(a)[0] == Row(Description, Text(DescriptionText(a)))
  {
    var cs := Candidates(a);
    var rows := Rows(a);
    var k := Ord(l);
    assert cs[k].row.heading == l;
    assert cs[k].show == RowCondition(a, l);
    if cs[k].show {
      assert cs[k].row in rows;
      var i :| 0 <= i < |rows| && rows[i] == cs[k].row;
      assert LabelsOf(rows)[i] == l;
    }
    if l in LabelsOf(rows) {
      var i :| 0 <= i < |rows| && LabelsOf(rows)[i] == l;
      assert rows[i] in rows;
      var k' :| 0 <= k' < |cs| && cs[k'].show && cs[k'].row == rows[i];
      assert Ord(cs[k'].row.heading) == k';
    }
    assert rows == [cs[0].row] + Pushed(cs[1..]);
  }

  /** The System and Domain rows list part-of relations of that kind only. */
  lemma SystemRowsArePartOf(a: About, r: Relation)
    ensures r in Systems(a) <==> r in a.relations && r.relType == PartOf && Lower(r.kind) == "system"
    ensures r in Domains(a) <==> r in a.relations && r.relType == PartOf && Lower(r.kind) == "domain"
  {
    assert Lower("system") == "system";
    assert Lower("domain") == "domain";
  }
}
