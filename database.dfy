/**
 * The rows of the `sessions` and `participants` tables and the store the two
 * server routes act on.
 */
module Database {
  import opened Wrappers

  datatype SessionStatus = Planning | Drawn | Completed | Archived

  datatype SessionRow = SessionRow(
    id: string,
    organizerId: string,
    name: string,
    status: SessionStatus,
    adminToken: string,
    createdAt: string,
    updatedAt: string)

  /** A participant row. `revealViewedAt` is the `reveal_viewed_at` column that
      the reveal route reads and writes. */
  datatype ParticipantRow = ParticipantRow(
    id: string,
    sessionId: string,
    name: string,
    phoneNumber: string,
    participantToken: string,
    assignedToId: Option<string>,
    isOrganizer: bool,
    whatsappSentAt: Option<string>,
    revealViewedAt: Option<string>,
    createdAt: string,
    updatedAt: string)

  /** The organizer's view of a participant: no `assigned_to_id`. */
  datatype ParticipantAdmin = ParticipantAdmin(
    id: string,
    name: string,
    phoneNumber: string,
    participantToken: string,
    isOrganizer: bool,
    whatsappSentAt: Option<string>,
    createdAt: string)

  /** `id` is the primary key of the participants table. */
  predicate UniqueIds(rows: seq<ParticipantRow>) {
    forall k, l :: 0 <= k < |rows| && 0 <= l < |rows| && k != l ==> rows[k].id != rows[l].id
  }

  /** The two tables as the service-role client sees them. */
  class Store {
    var participants: seq<ParticipantRow>
    var sessions: seq<SessionRow>

    constructor (participants: seq<ParticipantRow>, sessions: seq<SessionRow>)
      ensures this.participants == participants && this.sessions == sessions
    {
      this.participants := participants;
      this.sessions := sessions;
    }
  }
}
