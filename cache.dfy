// The Spring read cache: one map per cache name, keyed by the method
// argument. `@Cacheable` reads through it; `@CacheEvict` removes one key
// after the annotated method returns normally.
module ReadCache {
  import opened Common
  import opened Views

  class Cache {
    var tasks: map<Id, TaskView>
    var developers: map<Id, DeveloperView>
    var developerDetails: map<Id, DeveloperDetail>
    var projects: map<Id, ProjectView>
    var projectDetails: map<Id, ProjectDetail>

    constructor()
      ensures tasks == map[] && developers == map[] && developerDetails == map[]
      ensures projects == map[] && projectDetails == map[]
    {
      tasks, developers, developerDetails, projects, projectDetails := map[], map[], map[], map[], map[];
    }
  }
}
