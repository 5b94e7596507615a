/** setup_dev_site.py: make sure the Site with id 1 exists and points at
    `localhost`. The sites table is a map from id to the two columns the
    command writes. The `domain` column is unique, so a write that would give
    two sites the same domain fails with an integrity error. */
module DevSite {

  datatype Site = Site(domain: string, name: string)

  /** The command either leaves the table as `sites`, or the database rejects
      its write because another site already holds the domain. */
  datatype Outcome = Updated(sites: map<int, Site>) | DomainTaken

  const DevSiteId: int := 1
  const LocalHost: string := "localhost"

  /** Some site other than Site 1 already has `domain` as its domain. */
  predicate DomainHeldElsewhere(sites: map<int, Site>, domain: string) {
    exists id :: id in sites && id != DevSiteId && sites[id].domain == domain
  }

  /** Every domain in the table belongs to one site only. */
  predicate UniqueDomains(sites: map<int, Site>) {
    forall a, b :: a in sites && b in sites && sites[a].domain == sites[b].domain ==> a == b
  }

  /** Create Site 1 if it is absent, then set its domain and name. The create
      and the update both write domain `localhost`, so either fails exactly
      when another site already holds that domain, and nothing is written. */
  function SetupDevSite(sites: map<int, Site>): (r: Outcome)
    ensures r.DomainTaken? <==> DomainHeldElsewhere(sites, LocalHost)
    ensures r.Updated? ==> DevSiteId in r.sites && r.sites[DevSiteId] == Site(LocalHost, LocalHost)
    ensures r.Updated? ==> r.sites.Keys == sites.Keys + {DevSiteId}
    ensures r.Updated? ==> forall id :: id in sites && id != DevSiteId ==> r.sites[id] == sites[id]
    ensures r.Updated? ==> |r.sites| == if DevSiteId in sites then |sites| else |sites| + 1
    ensures r.Updated? && UniqueDomains(sites) ==> UniqueDomains(r.sites)
  {
    if DomainHeldElsewhere(sites, LocalHost) then DomainTaken
    else
      var ensured :=
        if DevSiteId in sites then sites
        else sites[DevSiteId := Site(LocalHost, LocalHost)];
      Updated(ensured[DevSiteId := ensured[DevSiteId].(domain := LocalHost, name := LocalHost)])
  }

  /** After a success, running the command a second time succeeds again and
      returns the same table. */
  lemma SetupDevSiteIdempotent(sites: map<int, Site>)
    ensures var once := SetupDevSite(sites);
      once.Updated? ==> SetupDevSite(once.sites) == once
  {
  }
}
