/** The command line of a bootflow. */
module CmdlineBootflow {
  import opened CmdlineSpec
  import opened CmdlineEdit
  import opened CmdlineMap

  const CMDLINE_MAX: nat := 2048

  datatype Status = Ok | Failed(error: Error)

  class Bootflow {
    var cmdline: string

    constructor ()
      ensures cmdline == ""
    {
      cmdline := "";
    }

    /** bootflow_cmdline_set_arg(): edits the command line in a buffer of 2048
        characters; an error leaves it as it was. */
    method CmdlineSetArg(arg: string, val: NewVal) returns (status: Status)
      modifies this
      ensures cmdline == Apply(old(cmdline), Edit(arg, val, CMDLINE_MAX))
      ensures match SetArgResult(old(cmdline), arg, val, CMDLINE_MAX)
              case Text(_) => status == Ok
              case Fail(e) => status == Failed(e)
    {
      var buf := new char[CMDLINE_MAX];
      var r := SetArg(buf, CMDLINE_MAX, cmdline, arg, val);
      if r.Err? {
        return Failed(r.error);
      }
      ghost var text := SetArgResult(cmdline, arg, val, CMDLINE_MAX).text;
      assert buf[..r.len][..r.len - 1] == text;
      cmdline := buf[..r.len - 1];
      return Ok;
    }

    /** bootflow_cmdline_get_arg(): the value of the first argument of that name. */
    method CmdlineGetArg(arg: string) returns (got: Got)
      ensures got == Get(cmdline, arg)
    {
      var hit := GetArg(cmdline, arg);
      if hit.Missing? {
        return No(hit.error);
      }
      LookHits(cmdline, 0, arg);
      return if hit.len >= 0 then Yes(cmdline[hit.pos..hit.pos + hit.len]) else No(ENOENT);
    }
  }
}
