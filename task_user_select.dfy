/** The checkbox list of src/components/TaskUserSelect.tsx. */
module TaskUserSelect {
  import opened Wrappers
  import opened Seqs

  /** `handleUserToggle(userId)`: the new list handed to `onChange`; `selectedUsers` itself is a value and stays as it was. */
  function HandleUserToggle(selectedUsers: seq<string>, userId: string): (newUsers: seq<string>)
    ensures userId !in selectedUsers ==> newUsers == selectedUsers + [userId]
    ensures userId in selectedUsers ==> userId !in newUsers && IsSubsequence(newUsers, selectedUsers)
    ensures userId in selectedUsers ==> forall id :: id != userId ==> (id in newUsers <==> id in selectedUsers)
    ensures userId in selectedUsers ==> multiset(newUsers) == multiset(selectedUsers)[userId := 0]
  {
    ToggleKeepsOrder(selectedUsers, userId);
    Toggle(selectedUsers, userId)
  }

  /** Toggling an unselected user twice gives the original list back. */
  lemma ToggleUserTwice(selectedUsers: seq<string>, userId: string)
    requires userId !in selectedUsers
    ensures HandleUserToggle(HandleUserToggle(selectedUsers, userId), userId) == selectedUsers
  {
    ToggleTwice(selectedUsers, userId);
  }

  /** A checkbox change: `onChange` receives the toggled list, unless the list is disabled. */
  function OnCheckboxChange(selectedUsers: seq<string>, userId: string, disabled: bool): (onChange: Option<seq<string>>)
    ensures disabled <==> onChange.None?
    ensures !disabled ==> onChange.value == HandleUserToggle(selectedUsers, userId)
  {
    if disabled then None else Some(HandleUserToggle(selectedUsers, userId))
  }
}
