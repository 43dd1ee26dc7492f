/** The administrator's service: one request at a time, over mutable rows and an audit log. */
module CatalogAdmin {
  import opened Prelude
  import opened Rules
  import opened Catalogue
  import opened Lifecycle

  datatype Reply = Ok(row: Scholarship) | Rejected(error: Error)

  class CatalogAdminService {
    var content: Content
    var log: seq<Event>

    constructor (content: Content, log: seq<Event>)
      ensures this.content == content && this.log == log
    {
      this.content, this.log := content, log;
    }

    function Snapshot(): State
      reads this
    {
      State(content, map[], log)
    }

    /** The optimistic UPDATE statement of an edit. */
    method UpdateRow(id: nat, expected: nat, changes: map<Column, Value>) returns (row: Option<Scholarship>)
      requires id < |content.rows|
      modifies `content
      ensures row.Some? <==> old(content).rows[id].version == expected
                             && old(content).rows[id].status != Archived
      ensures row.Some? ==> row.value == Written(old(content).rows[id], Edit(changes))
      ensures content == if row.None? then old(content)
                         else old(content).(rows := old(content).rows[id := row.value])
    {
      var current := content.rows[id];
      if current.version != expected || current.status == Archived { return None; }
      var requiresReview := exists c: Column :: c in changes && c != ReviewerNotes;
      var demote := requiresReview && current.status == Published;
      var fields := map c: Column | true :: if c in changes then Stored(c, changes[c]) else current.fields[c];
      var updated := current.(fields := fields,
                              status := if demote then InReview else current.status,
                              verified := if demote then false else current.verified,
                              version := current.version + 1);
      content := content.(rows := content.rows[id := updated]);
      return Some(updated);
    }

    /** The optimistic UPDATE statement of a lifecycle transition. */
    method TransitionRow(id: nat, expected: nat, from: Status, to: Status, action: Action, notes: Option<string>)
      returns (row: Option<Scholarship>)
      requires id < |content.rows| && Target(from, action) == Some(to)
      modifies `content
      ensures row.Some? <==> old(content).rows[id].version == expected && old(content).rows[id].status == from
      ensures row.Some? ==> row.value == Written(old(content).rows[id], Act(action, notes))
      ensures content == if row.None? then old(content)
                         else old(content).(rows := old(content).rows[id := row.value])
    {
      var current := content.rows[id];
      if current.version != expected || current.status != from { return None; }
      var updated := current.(status := to, version := current.version + 1);
      if notes.Some? {
        updated := updated.(fields := updated.fields[ReviewerNotes := Text(notes.value)]);
      }
      if action == Review {
        updated := updated.(verified := true);
      } else if action == SubmitForReview {
        updated := updated.(verified := false);
      }
      content := content.(rows := content.rows[id := updated]);
      return Some(updated);
    }

    /** An edit is the machine's read and commit with nothing in between. */
    method Update(id: nat, expected: nat, changes: map<Column, Value>, today: Date) returns (reply: Reply)
      modifies this
      ensures Snapshot() == DoCommit(DoBegin(old(Snapshot()), 0, id, expected, Edit(changes), today), 0)
      ensures reply.Ok? ==> id < |content.rows| && content.rows[id] == reply.row
      ensures reply.Rejected? ==> Snapshot() == old(Snapshot())
      ensures id < |old(content).rows| && Refusal(old(content).rows[id], Edit(changes), today).None? ==>
                (reply.Ok? <==> Matches(old(content).rows[id], expected, Edit(changes), old(content).rows[id]))
    {
      if changes == map[] { return Rejected(EmptyUpdate); }
      if id >= |content.rows| { return Rejected(NotFound); }
      var current := content.rows[id];
      var refusal := Refusal(current, Edit(changes), today);
      if refusal.Some? { return Rejected(refusal.value); }
      hide Refusal;
      hide Written;
      var row := UpdateRow(id, expected, changes);
      if row.None? { return Rejected(VersionConflict); }
      log := log + [Event(id, ByEdit, Some(current), row.value)];
      return Ok(row.value);
    }

    /** A transition is the machine's read, check of the requirements, and commit. */
    method Transition(id: nat, expected: nat, action: Action, notes: Option<string>, today: Date)
      returns (reply: Reply)
      modifies this
      ensures Snapshot()
              == DoCommit(DoReadIfNeeded(DoBegin(old(Snapshot()), 0, id, expected, Act(action, notes), today),
                                         Act(action, notes)), 0)
      ensures reply.Ok? ==> id < |content.rows| && content.rows[id] == reply.row
      ensures reply.Rejected? ==> Snapshot() == old(Snapshot())
      ensures id < |old(content).rows| && Refusal(old(content).rows[id], Act(action, notes), today).None? ==>
                (reply.Ok? <==> old(content).rows[id].version == expected
                                && (action == Publish ==> old(content).rows[id].requirements != []))
    {
      if id >= |content.rows| { return Rejected(NotFound); }
      var current := content.rows[id];
      var request := Act(action, notes);
      var refusal := Refusal(current, request, today);
      if refusal.Some? {
        if refusal.value == DeadlineExpired && current.requirements == [] {
          return Rejected(ReviewRequired);
        }
        return Rejected(refusal.value);
      }
      if action == Publish && current.requirements == [] { return Rejected(ReviewRequired); }
      var to := Target(current.status, action).value;
      hide Refusal;
      hide Written;
      var row := TransitionRow(id, expected, current.status, to, action, notes);
      if row.None? { return Rejected(VersionConflict); }
      log := log + [Event(id, ByAction(action), Some(current), row.value)];
      return Ok(row.value);
    }

    method Create(provider: string, website: Option<string>, fields: Fields, requirements: seq<Requirement>)
      returns (reply: Option<Scholarship>)
      modifies this
      ensures Snapshot() == DoCreate(old(Snapshot()), provider, website, fields, requirements)
      ensures reply.Some? ==> content.rows == old(content).rows + [reply.value]
    {
      hide WellFormed;
      hide UrlTaken;
      hide UpsertProvider;
      hide StoredFields;
      if !WellFormed(fields) || !NameFits(provider) || UrlTaken(content.rows, fields[SourceUrl], -1) { return None; }
      var providers := UpsertProvider(content.providers, provider, website);
      var row := Scholarship(provider, StoredFields(fields), None, [], Draft, false, 1);
      if requirements != [] {
        row := row.(requirements := requirements);
      }
      log := log + [Event(|content.rows|, ByCreate, None, row)];
      content := content.(rows := content.rows + [row], providers := providers);
      return Some(row);
    }
  }

  function DoReadIfNeeded(s: State, request: Request): State {
    if NeedsRequirements(request) then DoReadRequirements(s, 0) else s
  }
}
