/** Crediting comment points when PayPal reports a completed payment
    (news_app/signals.py, `process_successful_ipn_signal`). One dollar buys
    100 comment points, so the points are the gross amount times 100. */
module Signals {
  import opened Wrappers
  import opened Models
  import opened Storage

  /** The fields of a PayPal instant payment notification the handler reads:
      `custom` and `transaction_subject` both carry the buyer's user name,
      and `mc_gross` is the decimal amount paid. */
  datatype Ipn = Ipn(custom: string, transactionSubject: string, mcGross: real)

  /** A credit, or the message handed to the error handler. */
  datatype IpnResult = Credited(profile: ProfileId, points: nat) | IpnError(message: string)

  const UNKNOWN_USERNAME: string := "Username in ipn_obj.transaction_subject does not exist."
  const BAD_POINTS: string := "comment points are less than 0, or there are some decimal points."

  function MismatchMessage(ipn: Ipn): string {
    "ipn_obj.custom (" + ipn.custom + ") does not equal ipn_obj.transaction_subject ("
      + ipn.transactionSubject + ")"
  }

  /** A positive whole number of points. */
  predicate WholePoints(points: real) {
    points > 0.0 && points == points.Floor as real
  }

  /** `process_successful_ipn_signal(ipn)`: the new tables and what happened. */
  function ProcessIpn(st: Store, ipn: Ipn): (Store, IpnResult) {
    if ipn.custom != ipn.transactionSubject then (st, IpnError(MismatchMessage(ipn)))
    else match FindProfile(st.profiles, ipn.transactionSubject)
      case None => (st, IpnError(UNKNOWN_USERNAME))
      case Some(p) =>
        var points := ipn.mcGross * 100.0;
        if !WholePoints(points) then (st, IpnError(BAD_POINTS))
        else
          var n := points.Floor;
          var prof := st.profiles[p];
          (st.(profiles := st.profiles[p := prof.(commentPoints := prof.commentPoints + n)]), Credited(p, n))
  }

  /** A payment is credited exactly when both name fields agree, name an
      existing user and the amount is a positive whole number of cents; the
      buyer, and no one else, then gains exactly that many points. */
  lemma ProcessIpnCredits(st: Store, ipn: Ipn)
    requires Valid(st)
    ensures
      var (st', res) := ProcessIpn(st, ipn);
      && (res.Credited? <==>
            && ipn.custom == ipn.transactionSubject
            && FindProfile(st.profiles, ipn.transactionSubject).Some?
            && WholePoints(ipn.mcGross * 100.0))
      && (res.Credited? ==>
            && res.profile < |st.profiles| && st.profiles[res.profile].username == ipn.custom
            && res.points >= 1 && res.points as real == ipn.mcGross * 100.0
            && st'.rankables == st.rankables && st'.ratings == st.ratings
            && |st'.profiles| == |st.profiles|
            && st'.profiles[res.profile].commentPoints == st.profiles[res.profile].commentPoints + res.points
            && st'.profiles[res.profile].username == st.profiles[res.profile].username
            && st'.profiles[res.profile].optionShowDead == st.profiles[res.profile].optionShowDead
            && (forall q | 0 <= q < |st.profiles| && q != res.profile :: st'.profiles[q] == st.profiles[q]))
      && (res.IpnError? ==> st' == st)
  {
  }

  /** The three refusals, in the order they are checked, each with its message. */
  lemma ProcessIpnErrors(st: Store, ipn: Ipn)
    ensures ipn.custom != ipn.transactionSubject ==> ProcessIpn(st, ipn) == (st, IpnError(MismatchMessage(ipn)))
    ensures ipn.custom == ipn.transactionSubject && FindProfile(st.profiles, ipn.custom).None? ==>
      ProcessIpn(st, ipn) == (st, IpnError(UNKNOWN_USERNAME))
    ensures (ipn.custom == ipn.transactionSubject && FindProfile(st.profiles, ipn.custom).Some?
             && !WholePoints(ipn.mcGross * 100.0)) ==> ProcessIpn(st, ipn) == (st, IpnError(BAD_POINTS))
  {
  }

  /** Paying `cents / 100` dollars as user `p` credits `p` with `cents` points. */
  lemma PayingCents(st: Store, p: ProfileId, cents: nat)
    requires Valid(st) && p < |st.profiles| && cents >= 1
    ensures
      var name := st.profiles[p].username;
      ProcessIpn(st, Ipn(name, name, cents as real / 100.0)).1 == Credited(p, cents)
  {
    var name := st.profiles[p].username;
    FindProfileUnique(st.profiles, name, p);
    assert (cents as real / 100.0) * 100.0 == cents as real;
  }

  /** A fraction of a cent, or nothing at all, is refused. */
  lemma FractionOfCentRefused(st: Store, p: ProfileId)
    requires Valid(st) && p < |st.profiles|
    ensures
      var name := st.profiles[p].username;
      && ProcessIpn(st, Ipn(name, name, 0.005)) == (st, IpnError(BAD_POINTS))
      && ProcessIpn(st, Ipn(name, name, 0.0)) == (st, IpnError(BAD_POINTS))
  {
    var name := st.profiles[p].username;
    FindProfileUnique(st.profiles, name, p);
    assert (0.005 * 100.0).Floor == 0;
  }

  /** Crediting keeps the tables valid: points only grow. */
  lemma ProcessIpnPreservesValid(st: Store, ipn: Ipn)
    requires Valid(st)
    ensures Valid(ProcessIpn(st, ipn).0)
  {
    ProcessIpnCredits(st, ipn);
    var (st', res) := ProcessIpn(st, ipn);
    if res.Credited? {
      assert forall q | 0 <= q < |st.profiles| :: st'.profiles[q].username == st.profiles[q].username;
    }
  }

  /** The handler as it runs on the tables. */
  method ProcessIpnView(db: Database, ipn: Ipn) returns (result: IpnResult)
    modifies db
    ensures (db.Snapshot(), result) == ProcessIpn(old(db.Snapshot()), ipn)
  {
    if ipn.custom != ipn.transactionSubject {
      return IpnError(MismatchMessage(ipn));
    }
    var found := FindProfile(db.profiles, ipn.transactionSubject);
    if found.None? {
      return IpnError(UNKNOWN_USERNAME);
    }
    var p := found.value;
    var points := ipn.mcGross * 100.0;
    if points <= 0.0 || points != points.Floor as real {
      return IpnError(BAD_POINTS);
    }
    var prof := db.profiles[p];
    prof := prof.(commentPoints := prof.commentPoints + points.Floor);
    db.SaveProfile(p, prof);
    result := Credited(p, points.Floor);
  }
}
