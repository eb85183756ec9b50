/** The identity of a workspace. */
module Workspaces {

  /** Workspace ids are never the empty string. */
  type OrgId = s: string | s != "" witness "o"
}
