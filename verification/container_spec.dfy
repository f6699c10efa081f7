/** The mutable description of a container that the client factories fill in. */
module ContainerSpec {
  import opened Keys

  /** The contents of a file: text, one encrypted key, or Prysm's encrypted pair of key lists. */
  datatype Content =
    | Plain(text: string)
    | Keystore(key: BlsKey, password: string)
    | KeyList(privateKeys: seq<Bytes>, publicKeys: seq<Bytes>, password: string)

  datatype SpecData = SpecData(
    name: string, repository: string, tag: string, cmd: seq<string>, mounts: seq<string>,
    files: map<string, Content>, labels: map<string, string>, user: string)

  const EMPTY: SpecData := SpecData("", "", "", [], [], map[], map[], "")

  /** A deployed container: what it was deployed from, and its address. */
  datatype NodeData = NodeData(spec: SpecData, ip: string)

  /** Indexing a missing label gives the empty string. */
  function Label(labels: map<string, string>, k: string): string {
    if k in labels then labels[k] else ""
  }

  predicate HasLabel(s: SpecData, k: string, v: string) {
    Label(s.labels, k) == v
  }

  class Spec {
    var name: string
    var repository: string
    var tag: string
    var cmd: seq<string>
    var mounts: seq<string>
    var files: map<string, Content>
    var labels: map<string, string>
    var user: string

    constructor ()
      ensures Data() == EMPTY
    {
      name, repository, tag, cmd, mounts, files, labels, user := "", "", "", [], [], map[], map[], "";
    }

    /** The value of all fields. */
    function Data(): SpecData
      reads this
    {
      SpecData(name, repository, tag, cmd, mounts, files, labels, user)
    }

    predicate HasLabel(k: string, v: string)
      reads this
    {
      Label(labels, k) == v
    }

    method WithName(name: string)
      modifies this
      ensures Data() == old(Data()).(name := name)
    {
      this.name := name;
    }

    method WithContainer(repository: string)
      modifies this
      ensures Data() == old(Data()).(repository := repository)
    {
      this.repository := repository;
    }

    method WithTag(tag: string)
      modifies this
      ensures Data() == old(Data()).(tag := tag)
    {
      this.tag := tag;
    }

    method WithCmd(cmd: seq<string>)
      modifies this
      ensures Data() == old(Data()).(cmd := old(this.cmd) + cmd)
    {
      this.cmd := this.cmd + cmd;
    }

    method WithMount(mount: string)
      modifies this
      ensures Data() == old(Data()).(mounts := old(mounts) + [mount])
    {
      mounts := mounts + [mount];
    }

    method WithLabel(k: string, v: string)
      modifies this
      ensures Data() == old(Data()).(labels := old(labels)[k := v])
    {
      labels := labels[k := v];
    }

    method WithUser(user: string)
      modifies this
      ensures Data() == old(Data()).(user := user)
    {
      this.user := user;
    }

    method WithFile(path: string, content: Content)
      modifies this
      ensures Data() == old(Data()).(files := old(files)[path := content])
    {
      files := files[path := content];
    }
  }
}
