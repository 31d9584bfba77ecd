/** The operations of the Backend interface that change it (scimserverlite/backend.go:65-75). */
module Operations {
  import opened JsonTrees

  datatype Op =
    | Create(tenant: string, resourceType: string, resource: Text)
    | Update(tenant: string, resourceType: string, id: string, resource: Text)
    | Delete(tenant: string, resourceType: string, id: string)
    | Clear(tenant: string)
}
