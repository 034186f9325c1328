/** Worked cases of the policy: one enabled configuration, a server that
    grants five users or the modules "sale" and "stock", and one that cannot
    be reached. */
module Scenarios {
  import opened Values
  import opened LicenseChecker
  import opened ModuleGuard
  import opened UserQuota

  const Enabled: Config := map["enabled" := JStr("True"), "license_server" := JStr("http://x/")]

  /** A server answering every request with success and `data`. */
  function Granting(data: Json): Request -> HttpOutcome
  {
    (r: Request) => Response(200, Some(JObj(map["success" := JBool(true), "data" := data])))
  }

  function Unreachable(): Request -> HttpOutcome
  {
    (r: Request) => ConnectionFailed
  }

  const FiveUsers := [User(2, true, false), User(3, true, false), User(5, true, false),
                      User(6, true, false), User(7, true, false)]

  /** With five users granted and five internal users present, a sixth is
      refused and removed; the message reports the five present before. */
  lemma SixthUserRefused()
    ensures CreateUsers(Enabled, "db", FiveUsers, [User(8, true, false)], Granting(JInt(5)))
            == Guarded(Some(UsersRequest), FiveUsers, CannotCreate(5, JInt(5)))
  {
    EnabledRequests("users", JInt(5));
    var all := FiveUsers + [User(8, true, false)];
    assert InternalCount(all) == 6 by {
      InternalCountAppend(FiveUsers, [User(8, true, false)]);
      assert FiveUsers == [User(2, true, false)] + FiveUsers[1..];
    }
  }

  const UsersRequest := Request("http://x/se_license/check", "db", "users")

  /** Against `Enabled`, the request goes to the trimmed URL and the granted
      data comes back. */
  lemma EnabledRequests(checkType: string, data: Json)
    ensures CheckLicense(Enabled, "db", checkType, Granting(data))
            == Check(Some(Request("http://x/se_license/check", "db", checkType)), Returns(data))
  {
    assert IsEnabled(Enabled);
    assert ServerSetting(Enabled) == JStr("http://x/");
    EnabledUrl();
    var request := Request("http://x/se_license/check", "db", checkType);
    assert Interpret(Granting(data)(request)) == data;
  }

  /** The configured "http://x/" loses its slash before the endpoint is added. */
  lemma EnabledUrl()
    ensures RequestUrl("http://x/") == "http://x/se_license/check"
  {
    assert "http://x/"[..8] == "http://x";
    assert TrimTrailingSlashes("http://x") == "http://x";
    assert TrimTrailingSlashes("http://x/") == "http://x";
  }

  /** A server that cannot be reached lets every creation through. */
  lemma UnreachableServerAllowsCreation(before: seq<User>, created: seq<User>)
    ensures CreateUsers(Enabled, "db", before, created, Unreachable()).verdict == Accepted
    ensures CreateUsers(Enabled, "db", before, created, Unreachable()).users == before + created
  {
  }

  const SaleStock := JArr([JStr("stock"), JStr("sale")])

  /** With "sale" and "stock" licensed, "crm" is blocked and the message lists
      "sale, stock"; "sale" installs. */
  lemma CrmBlockedSaleAllowed()
    ensures CheckModuleLicense(Enabled, false, "db", ["crm"], Granting(SaleStock)).verdict
            == NotLicensed(["crm"], ["sale", "stock"], NotLicensedMessage(["crm"], ["sale", "stock"]))
    ensures CheckModuleLicense(Enabled, false, "db", ["sale"], Granting(SaleStock)).verdict
            == Allowed
  {
    EnabledRequests("modules", SaleStock);
    CrmJudged();
    SaleJudged();
  }

  lemma CrmJudged()
    ensures Judge(["crm"], SaleStock) == NotLicensed(["crm"], ["sale", "stock"], NotLicensedMessage(["crm"], ["sale", "stock"]))
  {
    assert !Contains(SaleStock, "all");
    assert Blocked(["crm"], SaleStock) == ["crm"];
    SaleStockListing();
  }

  /** The refusal for "crm" names it and lists "Allowed modules: sale, stock". */
  lemma CrmMessage()
    ensures Text.IsSubstring("Allowed modules: " + "sale, stock", NotLicensedMessage(["crm"], ["sale", "stock"]))
    ensures Text.IsSubstring("crm", NotLicensedMessage(["crm"], ["sale", "stock"]))
  {
    SaleStockJoined();
    assert ["crm"][0] == "crm";
  }

  lemma SaleStockJoined()
    ensures Text.Join(["sale", "stock"], ", ") == "sale, stock"
  {
    assert ["sale", "stock"][1..] == ["stock"];
  }

  lemma SaleJudged()
    ensures Judge(["sale"], SaleStock) == Allowed
  {
    assert !Contains(SaleStock, "all");
    assert Blocked(["sale"], SaleStock) == [];
  }

  lemma SaleStockListing()
    ensures Listing(SaleStock) == Returns(["sale", "stock"])
  {
    assert SaleStock.items[1..] == [JStr("sale")];
    assert [JStr("sale")][1..] == [];
    assert Strings([JStr("sale")]) == Some(["sale"] + []);
    assert ["sale"] + [] == ["sale"];
    assert Strings(SaleStock.items) == Some(["stock"] + ["sale"]);
    SaleBeforeStock();
  }

  lemma SaleBeforeStock()
    ensures Text.SortStrings(["stock", "sale"]) == ["sale", "stock"]
  {
    assert Text.StrLe("sale", "stock");
    assert ["stock", "sale"][..1] == ["stock"];
    assert Text.SortStrings(["stock"]) == ["stock"];
  }
}
