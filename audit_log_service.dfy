/** The audit entry the interceptor fills in, and the service that stamps
    and stores it. */
module AuditLogService {
  import opened Common
  import opened Entities
  import opened Store

  /** An audit entry under construction, updated through its setters. */
  class AuditLog {
    var eventTime: Option<Instant>
    var username: string
    var user: Option<Id>
    var action: string
    var status: string
    var ipAddress: string
    var path: string
    var httpMethod: string
    var message: Option<string>

    /** The row that saving the entry now would store. */
    function Record(): AuditRecord
      reads this
    {
      AuditRecord(eventTime, username, user, action, status, ipAddress, path, httpMethod, message)
    }

    constructor (eventTime: Option<Instant>, action: string, status: string, username: string,
                 ipAddress: string, path: string, httpMethod: string)
      ensures Record() == AuditRecord(eventTime, username, None, action, status, ipAddress, path, httpMethod, None)
    {
      this.eventTime := eventTime;
      this.action := action;
      this.status := status;
      this.username := username;
      this.ipAddress := ipAddress;
      this.path := path;
      this.httpMethod := httpMethod;
      this.user := None;
      this.message := None;
    }
  }

  /** An entry with its event time filled in: a missing time becomes `now`,
      a present one is kept, and no other field is touched. */
  function Stamped(rec: AuditRecord, now: Instant): (r: AuditRecord)
    ensures r.eventTime.Some?
    ensures rec.eventTime.Some? ==> r == rec
    ensures rec.eventTime.None? ==> r.eventTime == Some(now)
    ensures r.(eventTime := rec.eventTime) == rec
  {
    if rec.eventTime.None? then rec.(eventTime := Some(now)) else rec
  }

  /** `log`: defaults the entry's event time to `now`, then saves it. The
      save may throw (`rejects` gives the exception the store raises for a
      row, if any); a rejected save adds no row. */
  method Log(db: Database, log: AuditLog, now: Instant, rejects: AuditRecord -> Option<Exception>)
    returns (r: Outcome)
    requires db.Valid()
    modifies db, log
    ensures db.Valid()
    ensures log.Record() == Stamped(old(log.Record()), now)
    ensures rejects(log.Record()).None? ==>
              r == Pass && db.t == old(db.t).(auditLogs := old(db.t.auditLogs) + [log.Record()])
    ensures rejects(log.Record()).Some? ==>
              r == Fail(rejects(log.Record()).value) && db.t == old(db.t)
  {
    if log.eventTime.None? {
      log.eventTime := Some(now);
    }
    var rec := log.Record();
    var failure := rejects(rec);
    if failure.Some? {
      return Fail(failure.value);
    }
    db.AddAuditRecord(rec);
    r := Pass;
  }
}
