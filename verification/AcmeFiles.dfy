/** What the start-up check guarantees of a state file that anyone may have written. */
module AcmeFiles {
  import opened Common
  import opened Validator
  import opened Acme

  lemma OrderOf(cfg: Config, st: State, k: Id, i: nat)
    requires ValidateState(cfg, st) && k in st.orders && i < |st.orders[k].authIds|
    ensures var o := st.orders[k];
            && o.id == k && |o.authIds| == |o.identifiers| && o.authIds[i] in st.auths
            && st.auths[o.authIds[i]].orderId == k && st.auths[o.authIds[i]].accountId == o.accountId && st.auths[o.authIds[i]].name == o.identifiers[i]
  {
    hide AllowedName, ValidId, Distinct, AuthLoads, CertLoads, AccountLoads, LimitLoads;
    assert OrderLoads(cfg, st, k);
    assert IdentifierLoads(cfg, st, st.orders[k], i);
  }

  /** In a file that passes, no authorization serves two orders, or two names of one. */
  lemma AuthsServeOneOrder(cfg: Config, st: State, k: Id, i: nat, m: Id, j: nat)
    requires ValidateState(cfg, st) && k in st.orders && i < |st.orders[k].authIds| && m in st.orders && j < |st.orders[m].authIds|
    requires st.orders[k].authIds[i] == st.orders[m].authIds[j]
    ensures k == m && i == j
  {
    hide ValidateState;
    OrderOf(cfg, st, k, i);
    OrderOf(cfg, st, m, j);
    DistinctNames(cfg, st, k);
  }

  lemma DistinctNames(cfg: Config, st: State, k: Id)
    requires ValidateState(cfg, st) && k in st.orders
    ensures Distinct(st.orders[k].identifiers)
  {
    hide AllowedName, ValidId, Distinct, AuthLoads, CertLoads, AccountLoads, LimitLoads, IdentifierLoads;
    assert OrderLoads(cfg, st, k);
  }

  /** In a file that passes, certificates and completed orders belong to each other one to one, within one
      account and under distinct serial numbers; and whoever has a valid authorization has a proof on record. */
  lemma CertificatesMatchOrders(cfg: Config, st: State)
    requires ValidateState(cfg, st)
    ensures forall c :: c in st.certs ==>
              && st.certs[c].orderId in st.orders && st.orders[st.certs[c].orderId].status == OrderValid
              && st.orders[st.certs[c].orderId].certificateId == c && st.orders[st.certs[c].orderId].accountId == st.certs[c].accountId
    ensures forall k :: k in st.orders && st.orders[k].status == OrderValid ==>
              st.orders[k].certificateId in st.certs && st.certs[st.orders[k].certificateId].orderId == k
    ensures forall c, d :: c in st.certs && d in st.certs && c != d ==>
              st.certs[c].orderId != st.certs[d].orderId && st.certs[c].leaf.serial != st.certs[d].leaf.serial
    ensures forall a :: a in st.auths && st.auths[a].status == AuthValid ==>
              st.auths[a].validated.Some? && st.auths[a].target.ip.Some? && st.auths[a].target.client != Utf8("")
    ensures forall a, b :: a in st.accounts && b in st.accounts && a != b ==> st.accounts[a].key.thumbprint != st.accounts[b].key.thumbprint
  {
    hide AllowedName, ValidId, Distinct, IdentifierLoads, LimitLoads;
    forall c | c in st.certs
      ensures st.certs[c].orderId in st.orders && st.orders[st.certs[c].orderId].status == OrderValid && st.certs[c].leaf.serial == st.certs[c].serial
      ensures st.orders[st.certs[c].orderId].certificateId == c && st.orders[st.certs[c].orderId].accountId == st.certs[c].accountId
    {
      assert CertLoads(cfg, st, c);
    }
    forall k | k in st.orders && st.orders[k].status == OrderValid
      ensures st.orders[k].certificateId in st.certs && st.certs[st.orders[k].certificateId].orderId == k
    {
      assert OrderLoads(cfg, st, k);
    }
    forall a | a in st.auths && st.auths[a].status == AuthValid ensures st.auths[a].validated.Some? && ProvenTarget(st.auths[a].target) {
      assert AuthLoads(cfg, st, a);
    }
    forall a | a in st.accounts ensures st.accounts[a].key.thumbprint == st.accounts[a].thumbprint {
      assert AccountLoads(st, a);
    }
  }

  /** A file for another domain or authority, or of another version, is refused. */
  lemma ForeignFileRefused(cfg: Config, sys: System, now: Time, outcome: Outcome)
    requires sys.disk.Some?
    requires sys.disk.value.version != 1 || sys.disk.value.domain != cfg.domain || sys.disk.value.root != cfg.root
    ensures Restart(cfg, sys, now, outcome).1 == Refused && !Restart(cfg, sys, now, outcome).0.up && Restart(cfg, sys, now, outcome).0.disk == sys.disk
  {
  }
}
