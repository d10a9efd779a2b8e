/** The check-in notification job: asks the reservation repository for the
    reservations starting within its days-ahead window and sends one check-in
    notification per reservation whose user has an e-mail address. */
module CheckInJob {
  import opened Outcomes

  datatype User = User(email: string, name: string)

  /** An upcoming reservation as the repository returns it; its user may be null. */
  datatype UpcomingReservation = UpcomingReservation(id: int, startDate: Day, user: Option<User>)

  /** The arguments of one SendCheckInNotification call: address, name, check-in date. */
  datatype CheckInNotice = CheckInNotice(email: string, name: string, checkInDate: Day)

  /** A reservation is notified when it has a user and that user's e-mail is not empty. */
  predicate Eligible(r: UpcomingReservation) {
    r.user.Some? && r.user.value.email != ""
  }

  function NoticeFor(r: UpcomingReservation): (n: CheckInNotice)
    requires Eligible(r)
    ensures n.email == r.user.value.email && n.name == r.user.value.name && n.checkInDate == r.startDate
  {
    CheckInNotice(r.user.value.email, r.user.value.name, r.startDate)
  }

  /** The notices the job sends for `rs`, in order: one per eligible reservation. */
  function Notices(rs: seq<UpcomingReservation>): (ns: seq<CheckInNotice>)
    ensures |ns| <= |rs|
  {
    if rs == [] then []
    else if Eligible(rs[0]) then [NoticeFor(rs[0])] + Notices(rs[1..])
    else Notices(rs[1..])
  }

  /** The notices among `ns` that the sender did not deliver. */
  function Undelivered(ns: seq<CheckInNotice>, send: CheckInNotice -> bool): (failed: seq<CheckInNotice>)
    ensures |failed| <= |ns|
  {
    if ns == [] then []
    else if send(ns[0]) then Undelivered(ns[1..], send)
    else [ns[0]] + Undelivered(ns[1..], send)
  }

  /** Every notice goes to a non-empty address, and there are none exactly when no
      reservation has a user with an address. */
  lemma {:induction false} NoticesEligibleOnly(rs: seq<UpcomingReservation>)
    ensures forall n :: n in Notices(rs) ==> n.email != ""
    ensures Notices(rs) == [] <==> forall r :: r in rs ==> !Eligible(r)
  {
    if rs != [] {
      NoticesEligibleOnly(rs[1..]);
      assert forall r :: r in rs[1..] ==> r in rs;
      assert forall r :: r in rs ==> r == rs[0] || r in rs[1..];
    }
  }

  /** The undelivered notices are exactly the attempted ones the sender refused. */
  lemma {:induction false} UndeliveredAreRefused(ns: seq<CheckInNotice>, send: CheckInNotice -> bool)
    ensures forall n :: n in Undelivered(ns, send) <==> n in ns && !send(n)
  {
    if ns != [] {
      UndeliveredAreRefused(ns[1..], send);
      assert forall n :: n in ns <==> n == ns[0] || n in ns[1..];
    }
  }

  /** Notices of a concatenation are the notices of its parts, in order. */
  lemma {:induction false} NoticesAppend(a: seq<UpcomingReservation>, b: seq<UpcomingReservation>)
    ensures Notices(a + b) == Notices(a) + Notices(b)
  {
    if a == [] {
      assert a + b == b;
    } else {
      assert (a + b)[0] == a[0] && (a + b)[1..] == a[1..] + b;
      NoticesAppend(a[1..], b);
    }
  }

  lemma {:induction false} UndeliveredAppend(a: seq<CheckInNotice>, b: seq<CheckInNotice>, send: CheckInNotice -> bool)
    ensures Undelivered(a + b, send) == Undelivered(a, send) + Undelivered(b, send)
  {
    if a == [] {
      assert a + b == b;
    } else {
      assert (a + b)[0] == a[0] && (a + b)[1..] == a[1..] + b;
      UndeliveredAppend(a[1..], b, send);
    }
  }

  /** A single reservation gives its notice when it is eligible, and none otherwise. */
  lemma NoticesOfOne(r: UpcomingReservation)
    ensures Notices([r]) == if Eligible(r) then [NoticeFor(r)] else []
  {
    assert [r][1..] == [];
  }

  /** One more reservation adds its notice when it is eligible, and nothing otherwise. */
  lemma NoticesStep(rs: seq<UpcomingReservation>, i: nat)
    requires i < |rs|
    ensures Notices(rs[..i + 1]) == Notices(rs[..i]) + if Eligible(rs[i]) then [NoticeFor(rs[i])] else []
  {
    assert rs[..i + 1] == rs[..i] + [rs[i]];
    NoticesAppend(rs[..i], [rs[i]]);
    NoticesOfOne(rs[i]);
  }

  /** One more notice adds itself to the undelivered ones when the sender refuses it. */
  lemma UndeliveredStep(ns: seq<CheckInNotice>, n: CheckInNotice, send: CheckInNotice -> bool)
    ensures Undelivered(ns + [n], send) == Undelivered(ns, send) + if send(n) then [] else [n]
  {
    UndeliveredAppend(ns, [n], send);
    assert [n][1..] == [];
  }

  /** Each reservation contributes on its own: the one at index i adds exactly one notice,
      with its user's address and name and its start date, when it is eligible, and none
      when it has no user or an empty address. */
  lemma OneNoticePerEligible(rs: seq<UpcomingReservation>, i: nat)
    requires i < |rs|
    ensures Eligible(rs[i]) ==> Notices(rs) == Notices(rs[..i]) + [NoticeFor(rs[i])] + Notices(rs[i + 1..])
    ensures !Eligible(rs[i]) ==> Notices(rs) == Notices(rs[..i]) + Notices(rs[i + 1..])
  {
    var tail := rs[i..];
    assert rs == rs[..i] + tail;
    NoticesAppend(rs[..i], tail);
    assert tail[0] == rs[i] && tail[1..] == rs[i + 1..];
  }

  /** The job, with the notices it attempted and those whose send reported failure
      (the job logs these and carries on). */
  class CheckInNotificationJob {
    const daysAhead: int
    var attempted: seq<CheckInNotice>
    var failed: seq<CheckInNotice>

    constructor (daysAhead: int)
      ensures this.daysAhead == daysAhead && attempted == [] && failed == []
    {
      this.daysAhead := daysAhead;
      attempted := [];
      failed := [];
    }

    /** Execute: `upcomingFor` is the repository's GetUpcomingReservations, `send` the
        notification service's SendCheckInNotification. Every eligible reservation is sent
        exactly once whatever `send` answers, and the job never fails. */
    method Execute(upcomingFor: int -> seq<UpcomingReservation>, send: CheckInNotice -> bool)
      modifies this
      ensures attempted == old(attempted) + Notices(upcomingFor(daysAhead))
      ensures failed == old(failed) + Undelivered(Notices(upcomingFor(daysAhead)), send)
    {
      var upcoming := upcomingFor(daysAhead);
      var i := 0;
      while i < |upcoming|
        invariant 0 <= i <= |upcoming|
        invariant attempted == old(attempted) + Notices(upcoming[..i])
        invariant failed == old(failed) + Undelivered(Notices(upcoming[..i]), send)
      {
        var r := upcoming[i];
        NoticesStep(upcoming, i);
        if r.user.Some? && r.user.value.email != "" {
          var notice := CheckInNotice(r.user.value.email, r.user.value.name, r.startDate);
          UndeliveredStep(Notices(upcoming[..i]), notice, send);
          attempted := attempted + [notice];
          var delivered := send(notice);
          if !delivered {
            failed := failed + [notice];
          }
        } else {
          assert Notices(upcoming[..i]) + [] == Notices(upcoming[..i]);
        }
        i := i + 1;
      }
      assert upcoming[..i] == upcoming;
    }
  }
}
