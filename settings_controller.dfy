/**
 * Company settings: the company name a company shows, read by anyone who
 * names the company and changed by its managers.
 */
module SettingsController {
  import opened Common
  import opened ServerData

  datatype SettingsResult = SettingsFailed(status: int, error: string) | CompanyName(name: string)

  const DefaultCompanyName := "MVC"

  /** The company a settings read is about: the session's company when the
      session has one, else the normalised `companyId` query parameter. */
  function SettingsCompany(session: Option<SessionUser>, query: Option<string>): Option<string> {
    if session.Some? && session.value.companyId != "" then Some(session.value.companyId)
    else NormalizeCompanyId(query)
  }

  function GetCompanySettings(session: Option<SessionUser>, query: Option<string>,
                              settings: map<string, string>): (r: SettingsResult)
    ensures r.SettingsFailed? <==> SettingsCompany(session, query).None?
    ensures r.SettingsFailed? ==> r == SettingsFailed(400, "companyId is required")
    ensures r.CompanyName? ==> r.name != ""
    ensures r.CompanyName? ==> var c := SettingsCompany(session, query).value;
      r.name == (if c in settings && settings[c] != "" then settings[c] else DefaultCompanyName)
  {
    var c := SettingsCompany(session, query);
    if c.None? then SettingsFailed(400, "companyId is required")
    else if c.value !in settings || settings[c.value] == "" then CompanyName(DefaultCompanyName)
    else CompanyName(settings[c.value])
  }

  /** A signed-in caller always reads its own company's name: the query
      parameter cannot point elsewhere. */
  lemma SessionCompanyWins(session: SessionUser, q1: Option<string>, q2: Option<string>, settings: map<string, string>)
    requires session.companyId != ""
    ensures GetCompanySettings(Some(session), q1, settings) == GetCompanySettings(Some(session), q2, settings)
    ensures GetCompanySettings(Some(session), q1, settings).CompanyName?
    ensures var c := session.companyId;
      GetCompanySettings(Some(session), q1, settings).name
        == (if c in settings && settings[c] != "" then settings[c] else DefaultCompanyName)
  {
  }

  /** A company without a record, or with an empty name, reads as 'MVC'. */
  lemma DefaultName(session: Option<SessionUser>, query: Option<string>, settings: map<string, string>)
    requires SettingsCompany(session, query).Some?
    requires var c := SettingsCompany(session, query).value; c !in settings || settings[c] == ""
    ensures GetCompanySettings(session, query, settings) == CompanyName(DefaultCompanyName)
  {
  }

  /** Saves the trimmed name as the company's name, creating the record if
      there is none; a missing or blank name is refused. */
  method UpdateCompanySettings(db: Db, companyId: string, name: Option<string>) returns (r: SettingsResult)
    modifies db
    ensures r.SettingsFailed? <==> !Truthy(name) || Trim(name.value) == ""
    ensures r.SettingsFailed? ==> r == SettingsFailed(400, "Company name is required") && db.settings == old(db.settings)
    ensures r.CompanyName? ==> r.name == Trim(name.value) && db.settings == old(db.settings)[companyId := r.name]
    ensures db.employees == old(db.employees) && db.users == old(db.users) && db.punches == old(db.punches)
    ensures db.companies == old(db.companies)
  {
    if !Truthy(name) || Trim(name.value) == "" {
      return SettingsFailed(400, "Company name is required");
    }
    var trimmed := Trim(name.value);
    db.settings := db.settings[companyId := trimmed];
    r := CompanyName(trimmed);
  }

  /** After a successful update, reading the settings of that company gives
      back the trimmed name that was saved. */
  lemma UpdateThenGet(settings: map<string, string>, session: SessionUser, query: Option<string>, name: string)
    requires session.companyId != "" && Trim(name) != ""
    ensures GetCompanySettings(Some(session), query, settings[session.companyId := Trim(name)])
         == CompanyName(Trim(name))
  {
  }
}
